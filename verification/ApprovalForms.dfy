/** What an approval must look like, and the bytes it signs and is remembered by, field by field. */

module ApprovalForms {
  import opened Outcomes
  import opened Text
  import opened Json
  import opened Package
  import opened PackageForms
  import opened Spelling
  import opened Approvals

  // --------------------------------------------------------- fields of approvals

  predicate IsGitSha(t: Text) { (|t| == 40 || |t| == 64) && Over(t, HEX) }

  /** `SHA256:` and 43 symbols of Base64. */
  predicate IsFingerprint(t: Text) {
    && |t| == 50 && t[..7] == S("SHA256:")
    && forall i :: 7 <= i < 50 ==> IsWordCharacter(t[i]) || t[i] == '+' as int || t[i] == '/' as int
  }

  predicate AuthorityIs(a: Authority) {
    && Word(a.identity, "._@+-", 128) && a.namespace == S("lit-onepassword-approval-v1") && IsFingerprint(a.fingerprint)
    && IsChecksum(a.signersSha256) && IsChecksum(a.entrySha256) && IsChecksum(a.keygenSha256)
  }

  predicate AreShas(shas: map<Text, Text>) {
    forall repository :: repository in shas ==> Word(repository, "._/-", 128) && IsGitSha(shas[repository])
  }

  /** Times are microseconds: an approval lives for at most 15 minutes. */
  predicate ApprovalIs(calendar: Calendar, a: Approval) {
    && Word(a.executionId, "._:-", 128) && 1 <= |a.commitShas| <= 32
    && AreShas(a.commitShas) && IsChecksum(a.nonce)
    && 1 <= |a.signature| <= 16384 && (forall i :: 0 <= i < |a.signature| ==> a.signature[i] < 128)
    && match (calendar(a.issuedAt), calendar(a.expiresAt))
       case (Some(issued), Some(expires)) => issued < expires <= issued + 900_000_000
       case _ => false
  }

  lemma FingerprintExactly(t: Text)
    ensures Fingerprint(t) <==> IsFingerprint(t)
  {
    forall i | 0 <= i < |t| ensures IsWordCharacter(t[i]) <==> Alphanumeric(t[i]) { WordCharactersAre(t[i]); }
  }

  lemma AuthoritiesExactly(a: Authority)
    ensures ValidAuthority(a) <==> AuthorityIs(a)
  {
    NamesExactly(a.identity);
    FingerprintExactly(a.fingerprint);
    HexExactly(a.signersSha256, 64);
    HexExactly(a.entrySha256, 64);
    HexExactly(a.keygenSha256, 64);
  }

  lemma ShasExactly(shas: map<Text, Text>)
    ensures (forall repository :: repository in shas ==> Repository(repository) && GitSha(shas[repository])) <==> AreShas(shas)
  {
    forall repository | repository in shas
      ensures Repository(repository) <==> Word(repository, "._/-", 128)
      ensures GitSha(shas[repository]) <==> IsGitSha(shas[repository])
    {
      NamesExactly(repository);
      HexExactly(shas[repository], 40);
      HexExactly(shas[repository], 64);
    }
  }

  lemma ApprovalsExactly(calendar: Calendar, a: Approval)
    ensures ValidApproval(calendar, a) <==> ApprovalIs(calendar, a)
  {
    NamesExactly(a.executionId);
    HexExactly(a.nonce, 64);
    ShasExactly(a.commitShas);
  }

  /** A value that a contract can bind holds no floats and no empty keys, at any depth. */
  ghost predicate Inside(v: Json, w: Json)
    decreases w
  {
    || v == w
    || (w.JList? && exists i :: 0 <= i < |w.items| && Inside(v, w.items[i]))
    || (w.JObject? && exists key :: key in w.fields && Inside(v, w.fields[key]))
  }

  lemma {:induction false} BindableExactly(w: Json)
    ensures Bindable(w) <==> forall v :: Inside(v, w) ==> !v.JFloat? && (v.JObject? ==> [] !in v.fields)
    decreases w
  {
    if w.JList? {
      forall i | 0 <= i < |w.items| { BindableExactly(w.items[i]); }
    }
    if w.JObject? {
      forall key | key in w.fields { BindableExactly(w.fields[key]); }
    }
  }

  // ------------------------------------------------------------- what is signed

  /** The JSON of an authority. */
  predicate SpellsAuthority(v: Json, a: Authority) {
    && v.JObject? && v.fields.Keys == {
         S("schema_version"), S("identity"), S("namespace"), S("fingerprint"), S("allowed_signers_path"),
         S("allowed_signers_sha256"), S("allowed_signers_entry_sha256"), S("ssh_keygen_path"), S("ssh_keygen_sha256"),
         S("replay_directory")}
    && Field(v, "schema_version") == Some(JInt(1))
    && Holds(Field(v, "identity"), a.identity) && Holds(Field(v, "namespace"), a.namespace)
    && Holds(Field(v, "fingerprint"), a.fingerprint) && Holds(Field(v, "allowed_signers_path"), a.signersPath)
    && Holds(Field(v, "allowed_signers_sha256"), a.signersSha256)
    && Holds(Field(v, "allowed_signers_entry_sha256"), a.entrySha256)
    && Holds(Field(v, "ssh_keygen_path"), a.keygenPath) && Holds(Field(v, "ssh_keygen_sha256"), a.keygenSha256)
    && Holds(Field(v, "replay_directory"), a.replayDirectory)
  }

  predicate SpellsShas(v: Json, shas: map<Text, Text>) {
    v.JObject? && v.fields.Keys == shas.Keys && forall key :: key in shas ==> v.fields[key] == JString(shas[key])
  }

  /** The JSON that an authority signs. */
  predicate SpellsContract(v: Json, c: Contract) {
    && v.JObject? && v.fields.Keys == {
         S("schema_version"), S("authority"), S("execution_id"), S("commit_shas"), S("nonce"), S("issued_at"),
         S("expires_at"), S("replay_directory"), S("operation"), S("target"), S("binding")}
    && Field(v, "schema_version") == Some(JInt(1))
    && Field(v, "authority").Some? && SpellsAuthority(Field(v, "authority").value, c.authority)
    && Field(v, "commit_shas").Some? && SpellsShas(Field(v, "commit_shas").value, c.commitShas)
    && Holds(Field(v, "execution_id"), c.executionId) && Holds(Field(v, "nonce"), c.nonce)
    && Holds(Field(v, "issued_at"), c.issuedAt) && Holds(Field(v, "expires_at"), c.expiresAt)
    && Holds(Field(v, "replay_directory"), c.replayDirectory) && Holds(Field(v, "operation"), c.operation)
    && Holds(Field(v, "target"), c.target) && Field(v, "binding") == Some(c.binding)
  }

  /** The JSON that a replay marker is named after. */
  predicate SpellsIdentity(v: Json, i: Identity) {
    && v.JObject? && v.fields.Keys == {
         S("schema_version"), S("authority_identity"), S("authority_namespace"), S("authority_fingerprint"),
         S("execution_id"), S("nonce")}
    && Field(v, "schema_version") == Some(JInt(1))
    && Holds(Field(v, "authority_identity"), i.identity) && Holds(Field(v, "authority_namespace"), i.namespace)
    && Holds(Field(v, "authority_fingerprint"), i.fingerprint)
    && Holds(Field(v, "execution_id"), i.executionId) && Holds(Field(v, "nonce"), i.nonce)
  }

  lemma AuthoritySpelled(a: Authority)
    ensures SpellsAuthority(AuthorityValue(a), a)
  {
    AuthorityNames(a);
    AuthoritySigners(a);
    AuthorityKeygen(a);
    assert S("schema_version")[2] == 104 && S("schema_version")[1] == 99;
  }

  lemma PayloadVersion(c: Contract)
    ensures Field(Payload(c), "schema_version") == Some(JInt(1))
  {
  }

  /** What is signed says what the contract says, under the names it is checked by. */
  lemma ContractSpelled(c: Contract)
    ensures SpellsContract(Payload(c), c)
  {
    PayloadParts(c);
    PayloadTexts(c);
    PayloadPlaces(c);
    PayloadVersion(c);
    AuthoritySpelled(c.authority);
    ShasSpelled(c.commitShas);
  }

  lemma ShasSpelled(shas: map<Text, Text>)
    ensures SpellsShas(ShasValue(shas), shas)
  {
  }

  lemma IdentitySpelled(i: Identity)
    ensures SpellsIdentity(IdentityValue(i), i)
  {
  }
}
