/** How large Vault envelopes and printed packages are, and that they stay within the bounds chosen for them. */

module Sizes {
  import opened Text
  import opened Json
  import opened Package

  // ------------------------------------------------------------ Vault envelopes

  const NEWLINE: CodePoint := 10
  const LINE := 80

  /** The payload in lines of eighty characters, each ended by a newline. */
  function Wrapped(payload: Text): Text
    decreases |payload|
  {
    if |payload| <= LINE then payload + [NEWLINE]
    else payload[..LINE] + [NEWLINE] + Wrapped(payload[LINE..])
  }

  /** A Vault envelope: the header line, then the wrapped payload. */
  function Envelope(header: Text, payload: Text): Text { header + [NEWLINE] + Wrapped(payload) }

  /** The hexadecimal payload for a plaintext of this size: salt, MAC and padded ciphertext, in hexadecimal twice over. */
  function PayloadSize(plaintext: nat): nat { 2 * (64 + 1 + 64 + 1 + 2 * (16 * (plaintext / 16 + 1))) }

  function Lines(payload: nat): nat { (payload + LINE - 1) / LINE }

  /** The size of an envelope with a header of this length. */
  function EnvelopeSize(header: nat, plaintext: nat): nat {
    header + PayloadSize(plaintext) + Lines(PayloadSize(plaintext)) + 1
  }

  lemma {:induction false} WrappedSize(payload: Text)
    requires payload != []
    ensures |Wrapped(payload)| == |payload| + Lines(|payload|)
    decreases |payload|
  {
    if |payload| > LINE {
      WrappedSize(payload[LINE..]);
      assert Lines(|payload|) == Lines(|payload| - LINE) + 1;
    }
  }

  /** The formula counts exactly the characters of the envelope. */
  lemma EnvelopeHasSize(header: Text, payload: Text, plaintext: nat)
    requires |payload| == PayloadSize(plaintext)
    ensures |Envelope(header, payload)| == EnvelopeSize(|header|, plaintext)
  {
    WrappedSize(payload);
  }

  lemma EnvelopeGrows(header: nat, plaintext: nat, header': nat, plaintext': nat)
    requires header <= header' && plaintext <= plaintext'
    ensures EnvelopeSize(header, plaintext) <= EnvelopeSize(header', plaintext')
  {
    assert PayloadSize(plaintext) <= PayloadSize(plaintext');
  }

  const MAX_PLAINTEXT := 126 * 1024 * 1024
  const MAX_ENVELOPE := 512 * 1024 * 1024

  /** The header of a labelled envelope. */
  const LABELLED := 26

  /** Every plaintext within its cap fits into the ciphertext cap, with a label of up to a mebibyte. */
  lemma PlaintextFits(name: nat, plaintext: nat)
    requires name <= 1024 * 1024 && plaintext <= MAX_PLAINTEXT
    ensures EnvelopeSize(LABELLED + name, plaintext) < MAX_ENVELOPE
  {
    EnvelopeGrows(LABELLED + name, plaintext, LABELLED + 1024 * 1024, MAX_PLAINTEXT);
  }

  // -------------------------------------------------------------- printed sizes

  function CharSize(c: CodePoint): nat {
    if Named(c) != 0 then 2 else if 32 <= c < 127 then 1 else if c < 0x1_0000 then 6 else 12
  }

  function CharsSize(t: Text): nat { if t == [] then 0 else CharSize(t[0]) + CharsSize(t[1..]) }

  lemma {:induction false} CharsHaveSize(t: Text, k: Bytes)
    ensures |EmitChars(t, k)| == CharsSize(t) + |k|
  {
    if t != [] { CharsHaveSize(t[1..], k); }
  }

  lemma {:induction false} CharsAtMost(t: Text)
    ensures |t| <= CharsSize(t) <= 12 * |t|
  {
    if t != [] { CharsAtMost(t[1..]); }
  }

  lemma {:induction false} CharsJoin(s: Text, t: Text)
    ensures CharsSize(s + t) == CharsSize(s) + CharsSize(t)
  {
    if s == [] {
      assert s + t == t;
    } else {
      assert (s + t)[1..] == s[1..] + t;
      CharsJoin(s[1..], t);
    }
  }

  predicate PlainChar(c: CodePoint) { CharSize(c) == 1 }

  predicate AllPlain(t: Text) { forall i :: 0 <= i < |t| ==> PlainChar(t[i]) }

  lemma {:induction false} PlainSize(t: Text)
    requires AllPlain(t)
    ensures CharsSize(t) == |t|
  {
    if t != [] { PlainSize(t[1..]); }
  }

  /** Only the newlines of wrapped text are escaped. */
  lemma {:induction false} WrappedCharsSize(payload: Text)
    requires AllPlain(payload)
    ensures CharsSize(Wrapped(payload)) <= |Wrapped(payload)| + |payload| / LINE + 1
    decreases |payload|
  {
    var line, rest := payload[..LineEnd(payload)], payload[LineEnd(payload)..];
    PlainSize(line);
    CharsJoin(line, [NEWLINE]);
    assert CharsSize([NEWLINE]) == 2;
    if |payload| > LINE {
      CharsJoin(line + [NEWLINE], Wrapped(rest));
      WrappedCharsSize(rest);
    } else {
      assert line == payload;
    }
  }

  function LineEnd(payload: Text): nat { if |payload| <= LINE then |payload| else LINE }

  lemma EnvelopeCharsSize(header: Text, payload: Text)
    requires AllPlain(header) && AllPlain(payload) && payload != []
    ensures CharsSize(Envelope(header, payload)) <= |Envelope(header, payload)| + |Envelope(header, payload)| / LINE + 2
  {
    PlainSize(header);
    CharsJoin(header, [NEWLINE]);
    CharsJoin(header + [NEWLINE], Wrapped(payload));
    assert CharsSize([NEWLINE]) == 2;
    WrappedCharsSize(payload);
    WrappedSize(payload);
  }

  /** Text and small numbers, as they occur in a manifest. */
  predicate Small(v: Json, most: nat) {
    (v.JString? && |v.s| <= most) || (v.JInt? && 0 <= v.n < 1_0000_0000)
  }

  lemma SmallSize(v: Json, most: nat, k: Bytes)
    requires Small(v, most)
    ensures |Emit(v, k)| <= 12 * most + 10 + |k|
  {
    match v
    case JString(s) =>
      CharsHaveSize(s, [34] + k);
      CharsAtMost(s);
    case JInt(n) => NatSize(n, 8, k);
  }

  function Power10(d: nat): nat { if d == 0 then 1 else 10 * Power10(d - 1) }

  lemma {:induction false} NatSize(n: nat, d: nat, k: Bytes)
    requires d > 0 && n < Power10(d)
    ensures |EmitNat(n, k)| <= d + |k|
    decreases d
  {
    if n >= 10 { NatSize(n / 10, d - 1, [48 + n % 10] + k); }
  }

  predicate AllSmall(v: Json, most: nat) {
    v.JObject? && forall key :: key in v.fields ==> |key| <= 40 && Small(v.fields[key], most)
  }

  lemma StringSize(t: Text, k: Bytes)
    ensures |EmitString(t, k)| == CharsSize(t) + 2 + |k|
  {
    CharsHaveSize(t, [34] + k);
  }

  /** One member with a short key. */
  lemma MemberSize(key: Text, v: Json, most: nat, more: Bytes)
    requires |key| <= 40 && Small(v, most)
    ensures |EmitString(key, [58] + Emit(v, more))| <= 12 * most + 493 + |more|
  {
    StringSize(key, [58] + Emit(v, more));
    CharsAtMost(key);
    SmallSize(v, most, more);
  }

  lemma {:induction false} MembersSize(v: Json, most: nat, keys: seq<Text>, k: Bytes)
    requires AllSmall(v, most) && keys != [] && forall key :: key in keys ==> key in v.fields
    ensures |EmitMember(v, keys, k)| <= |keys| * (12 * most + 494) + |k|
    decreases |keys|
  {
    var each := 12 * most + 494;
    var more := if |keys| == 1 then [125] + k else [44] + EmitMember(v, keys[1..], k);
    if |keys| > 1 {
      MembersSize(v, most, keys[1..], k);
      assert |keys| * each == (|keys| - 1) * each + each;
    }
    MemberSize(keys[0], v.fields[keys[0]], most, more);
  }

  lemma SmallObjectSize(v: Json, most: nat, k: Bytes)
    requires AllSmall(v, most) && v.fields != map[]
    ensures |Emit(v, k)| <= 1 + |v.fields| * (12 * most + 494) + |k|
  {
    var keys := Sorted(v.fields.Keys);
    assert |keys| == |v.fields.Keys| == |v.fields|;
    MembersSize(v, most, keys, k);
  }

  lemma IdentityIsSmall(m: Json)
    requires m.JObject? && m.fields.Keys == MANIFEST_FIELDS && ValidIdentity(m)
    ensures Small(m.fields[S("schema_version")], 2048) && Small(m.fields[S("subject")], 2048)
    ensures Small(m.fields[S("source_machine_id")], 2048) && Small(m.fields[S("luks_uuid")], 2048)
  {
  }

  lemma HeaderIsSmall(m: Json)
    requires m.JObject? && m.fields.Keys == MANIFEST_FIELDS && ValidHeader(m)
    ensures Small(m.fields[S("ciphertext_sha256")], 2048) && Small(m.fields[S("luks_header_sha256_raw")], 2048)
    ensures Small(m.fields[S("luks_header_raw_size_bytes")], 2048)
  {
  }

  lemma CustodyIsSmall(m: Json)
    requires m.JObject? && m.fields.Keys == MANIFEST_FIELDS && ValidCustody(m)
    ensures Small(m.fields[S("owner")], 2048) && Small(m.fields[S("retention")], 2048)
    ensures Small(m.fields[S("key_retrieval_reference")], 2048)
  {
  }

  lemma ManifestIsSmall(m: Json)
    requires ValidManifest(m)
    ensures AllSmall(m, 2048) && 0 < |m.fields| <= 10
  {
    IdentityIsSmall(m);
    HeaderIsSmall(m);
    CustodyIsSmall(m);
    FieldCount();
    assert |m.fields| == |m.fields.Keys|;
    EachIsSmall(m);
  }

  predicate SmallIn(m: Json, keys: set<Text>) {
    m.JObject? && forall key :: key in keys ==> |key| <= 40 && key in m.fields && Small(m.fields[key], 2048)
  }

  lemma EachIsSmall(m: Json)
    requires m.JObject? && m.fields.Keys == MANIFEST_FIELDS
    requires Small(m.fields[S("schema_version")], 2048) && Small(m.fields[S("subject")], 2048)
    requires Small(m.fields[S("source_machine_id")], 2048) && Small(m.fields[S("luks_uuid")], 2048)
    requires Small(m.fields[S("ciphertext_sha256")], 2048) && Small(m.fields[S("luks_header_sha256_raw")], 2048)
    requires Small(m.fields[S("luks_header_raw_size_bytes")], 2048) && Small(m.fields[S("owner")], 2048)
    requires Small(m.fields[S("retention")], 2048) && Small(m.fields[S("key_retrieval_reference")], 2048)
    ensures AllSmall(m, 2048)
  {
    assert SmallIn(m, {S("schema_version")}) && SmallIn(m, {S("subject")}) && SmallIn(m, {S("source_machine_id")});
    assert SmallIn(m, {S("luks_uuid")}) && SmallIn(m, {S("ciphertext_sha256")}) && SmallIn(m, {S("luks_header_sha256_raw")});
    assert SmallIn(m, {S("luks_header_raw_size_bytes")}) && SmallIn(m, {S("owner")}) && SmallIn(m, {S("retention")});
    assert SmallIn(m, {S("key_retrieval_reference")});
    forall key | key in m.fields ensures SmallIn(m, {key}) {
      assert key in MANIFEST_FIELDS;
    }
    forall key | key in m.fields ensures |key| <= 40 && Small(m.fields[key], 2048) {
      assert SmallIn(m, {key}) && key in {key};
    }
  }

  lemma FieldCount()
    ensures 0 < |MANIFEST_FIELDS| <= 10
  {
    var fields := [S("schema_version"), S("subject"), S("source_machine_id"), S("luks_uuid"), S("luks_header_sha256_raw"),
                   S("luks_header_raw_size_bytes"), S("ciphertext_sha256"), S("owner"), S("retention"),
                   S("key_retrieval_reference")];
    AtMost(fields);
    assert (set t | t in fields) == MANIFEST_FIELDS;
    assert S("owner") in MANIFEST_FIELDS;
  }

  lemma {:induction false} AtMost(s: seq<Text>)
    ensures |set t | t in s| <= |s|
  {
    if s != [] {
      var n := |s| - 1;
      AtMost(s[..n]);
      assert s == s[..n] + [s[n]];
      assert (set t | t in s) == (set t | t in s[..n]) + {s[n]};
    }
  }

  lemma ManifestSize(m: Json, k: Bytes)
    requires ValidManifest(m)
    ensures |Emit(m, k)| <= 250_701 + |k|
  {
    ManifestIsSmall(m);
    SmallObjectSize(m, 2048, k);
    assert |m.fields| * 25_070 <= 10 * 25_070;
  }

  /** The two members of a package, in either order. */
  lemma PairSize(v: Json, a: Text, b: Text, k: Bytes)
    requires v.JObject? && a in v.fields && b in v.fields
    ensures EmitMember(v, [a, b], k) ==
            EmitString(a, [58] + Emit(v.fields[a], [44] + EmitString(b, [58] + Emit(v.fields[b], [125] + k))))
  {
    assert [a, b][1..] == [b];
  }

  lemma MemberBound(key: Text, v: Json, most: nat, more: Bytes)
    requires |key| <= 40 && |Emit(v, more)| <= most + |more|
    ensures |EmitString(key, [58] + Emit(v, more))| <= most + 483 + |more|
  {
    StringSize(key, [58] + Emit(v, more));
    CharsAtMost(key);
  }

  lemma PackageSize(p: Json, most: nat)
    requires p.JObject? && p.fields.Keys == {S("manifest"), S("ciphertext")} && ValidManifest(p.fields[S("manifest")])
    requires p.fields[S("ciphertext")].JString? && CharsSize(p.fields[S("ciphertext")].s) <= most
    ensures |Canonical(p)| <= most + 252_000
  {
    var keys := Sorted(p.fields.Keys);
    TwoKeys(keys);
    PackageMembers(p, keys[0], keys[1], most);
    assert keys == [keys[0], keys[1]];
  }

  lemma PackageMembers(p: Json, a: Text, b: Text, most: nat)
    requires p.JObject? && p.fields.Keys == {S("manifest"), S("ciphertext")} && ValidManifest(p.fields[S("manifest")])
    requires p.fields[S("ciphertext")].JString? && CharsSize(p.fields[S("ciphertext")].s) <= most
    requires a != b && a in p.fields && b in p.fields
    ensures |EmitMember(p, [a, b], [])| <= most + 251_900
  {
    assert |S("manifest")| == 8 && |S("ciphertext")| == 10;
    var sizeA := if a == S("manifest") then 250_701 else most + 2;
    var sizeB := if b == S("manifest") then 250_701 else most + 2;
    assert sizeA + sizeB == most + 250_703;
    PairSize(p, a, b, []);
    var second := EmitString(b, [58] + Emit(p.fields[b], [125]));
    assert [125] + [] == [125];
    ValueSize(p, b, most, [125]);
    MemberBound(b, p.fields[b], sizeB, [125]);
    ValueSize(p, a, most, [44] + second);
    MemberBound(a, p.fields[a], sizeA, [44] + second);
  }

  lemma TwoKeys(keys: seq<Text>)
    requires keys == Sorted({S("manifest"), S("ciphertext")})
    ensures |keys| == 2 && keys[0] != keys[1] && keys[0] in {S("manifest"), S("ciphertext")} && keys[1] in {S("manifest"), S("ciphertext")}
  {
    assert |S("manifest")| == 8 && |S("ciphertext")| == 10;
    assert keys[0] in keys && keys[1] in keys;
  }

  lemma ValueSize(p: Json, key: Text, most: nat, k: Bytes)
    requires p.JObject? && p.fields.Keys == {S("manifest"), S("ciphertext")} && ValidManifest(p.fields[S("manifest")])
    requires p.fields[S("ciphertext")].JString? && CharsSize(p.fields[S("ciphertext")].s) <= most && key in p.fields
    ensures |Emit(p.fields[key], k)| <= (if key == S("manifest") then 250_701 else most + 2) + |k|
  {
    if key == S("manifest") {
      ManifestSize(p.fields[key], k);
    } else {
      StringSize(p.fields[key].s, k);
    }
  }

  /** Every Vault-wrapped ciphertext within its own bound fits the package bound, whatever the metadata escapes to. */
  lemma WrappedPackageFits(hash: Digest, manifest: Json, header: Text, payload: Text)
    requires ValidManifest(manifest) && AllPlain(header) && AllPlain(payload) && payload != []
    requires ValidCiphertext(hash, JString(Envelope(header, payload)), manifest.fields[S("ciphertext_sha256")])
    ensures ValidPackage(hash, JObject(map[S("manifest") := manifest, S("ciphertext") := JString(Envelope(header, payload))]))
  {
    var text := Envelope(header, payload);
    var p := JObject(map[S("manifest") := manifest, S("ciphertext") := JString(text)]);
    assert |S("manifest")| == 8 && |S("ciphertext")| == 10;
    EnvelopeCharsSize(header, payload);
    PackageSize(p, |text| + |text| / LINE + 2);
  }
}
