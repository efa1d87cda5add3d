/**
 A smallest accepted bundle, and a second one with the same timestamp that revokes more:
 acceptance alone does not tell which list of revocations is the current one.  The hash and
 the signature scheme are arbitrary, as long as someone can sign.
 */
module CatalogWitness {
  import opened CanonicalJson
  import opened CatalogVerify
  import opened Strings
  import opened Wrappers

  /** A key pair and a text for a moment of expiry. */
  datatype Signer = Signer(public: string, sign: string -> string, expires: string)

  /** Digests are lower-case hexadecimal, the signer's signatures are good, and what it signs has not expired. */
  ghost predicate Works(t: Tools, k: Signer, now: int) {
    && (forall text :: LowerHex(t.sha(text)))
    && Base64Text(k.public) && t.keyOk(k.public)
    && (forall text :: Base64Text(k.sign(text)) && t.signatureOk(k.public, text, k.sign(text)))
    && t.expiry(k.expires).Some? && t.expiry(k.expires).value > now
  }

  lemma SomeSignerWorks(d: string)
    requires LowerHex(d)
    ensures Works(Tools(_ => d, _ => true, (_, _, _) => true, _ => Some(1)), Signer("p", _ => "s", "e"), 0)
  {
  }

  function Signatures(sig: string): Json {
    Arr([Obj(map["keyid" := Str("k"), "sig" := Str(sig)])])
  }

  function Enveloped(fields: Fields, sig: string): Json {
    Obj(map["signed" := Obj(fields), "signatures" := Signatures(sig)])
  }

  ghost function Signed(k: Signer, fields: Fields): Json {
    Enveloped(fields, k.sign(Encode(Obj(fields))))
  }

  ghost function EnvelopeFor(k: Signer, fields: Fields): Envelope {
    Envelope(fields, [Signature("k", k.sign(Encode(Obj(fields))))], Encode(Obj(fields)), Encode(Signed(k, fields)))
  }

  lemma TwoFields(a: string, b: string, v: Json, w: Json)
    requires a != b
    ensures |map[a := v, b := w]| == 2
  {
    assert map[a := v, b := w].Keys == {a, b};
  }

  lemma SignedIsEnvelope(fields: Fields, sig: string)
    requires Base64Text(sig)
    ensures EnvelopeItem(Enveloped(fields, sig)) && SignaturesOf(Signatures(sig).items) == [Signature("k", sig)]
  {
    TwoFields("keyid", "sig", Str("k"), Str(sig));
    TwoFields("signed", "signatures", Obj(fields), Signatures(sig));
    assert SignatureItem(Signatures(sig).items[0]);
  }

  lemma SignedIsValid(fields: Fields, sig: string)
    requires Valid(Obj(fields))
    ensures Valid(Enveloped(fields, sig))
  {
    assert Valid(Signatures(sig).items[0]);
    assert Valid(Signatures(sig));
  }

  lemma SignedReads(t: Tools, k: Signer, now: int, fields: Fields)
    requires Works(t, k, now) && Valid(Obj(fields))
    ensures EnvelopeOf(Encode(Signed(k, fields))) == Some(EnvelopeFor(k, fields))
  {
    var sig := k.sign(Encode(Obj(fields)));
    assert Base64Text(sig);
    SignedIsValid(fields, sig);
    ParseEncode(Signed(k, fields));
    SignedIsEnvelope(fields, sig);
  }

  // ---- The documents ----

  /** The members every role has, next to its own. */
  function Common(role: string, expires: string, own: Fields): Fields {
    map["_type" := Str(role), "version" := Num("1"), "expires" := Str(expires)] + own
  }

  ghost predicate Own(own: Fields) {
    "_type" !in own && "version" !in own && "expires" !in own && forall name :: name in own ==> Valid(own[name])
  }

  lemma OneIsOne()
    ensures IntegerText("1") && AllDigits("1") && NumberOf("1") == 1
  {
    assert Magnitude("1") == "1";
  }

  lemma CommonHolds(role: string, expires: string, own: Fields)
    requires Own(own)
    ensures var f := Common(role, expires, own);
            && Valid(Obj(f)) && PositiveVersion(f, "version") == Some(1)
            && TextOf(f, "_type") == Some(role) && TextOf(f, "expires") == Some(expires)
  {
    OneIsOne();
    var common := map["_type" := Str(role), "version" := Num("1"), "expires" := Str(expires)];
    forall name | name in Common(role, expires, own)
      ensures Valid(Common(role, expires, own)[name])
    {
      assert name in own || name in common;
    }
  }

  function MetaItem(d: string): Fields {
    map["version" := Num("1"), "hashes" := Obj(map["sha256" := Str(d)])]
  }

  function Meta(name: string, item: Fields): Fields {
    map["meta" := Obj(map[name := Obj(item)])]
  }

  lemma MetaItemHolds(d: string)
    ensures Valid(Obj(MetaItem(d))) && PositiveVersion(MetaItem(d), "version") == Some(1)
    ensures FieldsOf(MetaItem(d), "hashes").Some? && TextOf(FieldsOf(MetaItem(d), "hashes").value, "sha256") == Some(d)
  {
    OneIsOne();
    assert Valid(MetaItem(d)["hashes"]);
  }

  lemma MetaIsOwn(name: string, item: Fields)
    requires Valid(Obj(item))
    ensures Own(Meta(name, item))
  {
    assert Valid(Obj(map[name := Obj(item)]));
  }

  /** A document is bound by the digest of its envelope. */
  lemma MetaBinds(
    t: Tools, role: string, expires: string, name: string, item: Fields, document: Envelope, binding: Envelope)
    requires LowerHex(t.sha(document.envelopeText)) && PositiveVersion(item, "version") == Some(1)
    requires FieldsOf(item, "hashes").Some?
    requires TextOf(FieldsOf(item, "hashes").value, "sha256") == Some(t.sha(document.envelopeText))
    requires binding.signed == Common(role, expires, Meta(name, item))
    ensures Binds(t, document, binding, name, 1)
  {
    assert FieldsOf(binding.signed, "meta") == Some(map[name := Obj(item)]);
    LowerHexStays(t.sha(document.envelopeText));
  }

  // ---- The root ----

  function KeyFields(public: string): Fields {
    map["keytype" := Str("ed25519"), "scheme" := Str("ed25519"), "keyval" := Obj(map["public" := Str(public)])]
  }

  function PolicyFields(): Fields {
    map["keyids" := Arr([Str("k")]), "threshold" := Num("1")]
  }

  /** One key, and the same policy for every role. */
  function RootOwn(key: Fields, policy: Fields): Fields {
    map["keys" := Obj(map["k" := Obj(key)]), "roles" := Obj(map role | role in ROLES :: Obj(policy))]
  }

  function RootFields(k: Signer): Fields {
    Common("root", k.expires, RootOwn(KeyFields(k.public), PolicyFields()))
  }

  /** One key, which alone reaches the threshold of every role. */
  function Single(public: string): Root {
    Root(map["k" := public], map role | role in ROLES :: Policy(["k"], 1))
  }

  lemma KeyHolds(t: Tools, public: string)
    requires Base64Text(public) && t.keyOk(public)
    ensures Valid(Obj(KeyFields(public))) && KeyItem(t, "k", Obj(KeyFields(public)))
    ensures TextOf(FieldsOf(KeyFields(public), "keyval").value, "public") == Some(public)
  {
    assert Valid(KeyFields(public)["keyval"]);
  }

  lemma PolicyHolds(keys: Fields)
    requires "k" in keys
    ensures Valid(Obj(PolicyFields())) && RoleItem(keys, Obj(PolicyFields()))
    ensures IdsOf(Obj(PolicyFields())) == ["k"] && PositiveVersion(PolicyFields(), "threshold") == Some(1)
  {
    OneIsOne();
    assert Valid(PolicyFields()["keyids"]);
  }

  lemma RootIsOwn(key: Fields, policy: Fields)
    requires Valid(Obj(key)) && Valid(Obj(policy))
    ensures Own(RootOwn(key, policy))
  {
    var keys, roles := map["k" := Obj(key)], map role | role in ROLES :: Obj(policy);
    assert Valid(Obj(keys)) && Valid(Obj(roles));
  }

  lemma RootParts(expires: string, key: Fields, policy: Fields)
    ensures FieldsOf(Common("root", expires, RootOwn(key, policy)), "keys") == Some(map["k" := Obj(key)])
    ensures FieldsOf(Common("root", expires, RootOwn(key, policy)), "roles")
         == Some(map role | role in ROLES :: Obj(policy))
  {
  }

  lemma RootIsSingle(t: Tools, expires: string, key: Fields, policy: Fields, public: string, threshold: nat)
    requires KeyItem(t, "k", Obj(key)) && TextOf(FieldsOf(key, "keyval").value, "public") == Some(public)
    requires RoleItem(map["k" := Obj(key)], Obj(policy)) && PositiveVersion(policy, "threshold") == Some(threshold)
    ensures RootOf(t, Common("root", expires, RootOwn(key, policy)))
         == Some(Root(map["k" := public], map role | role in ROLES :: Policy(IdsOf(Obj(policy)), threshold)))
  {
    var signed := Common("root", expires, RootOwn(key, policy));
    RootParts(expires, key, policy);
    var keys, roles := FieldsOf(signed, "keys").value, FieldsOf(signed, "roles").value;
    assert "k" in keys;
    forall i | 0 <= i < |ROLES|
      ensures ROLES[i] in roles
    {
      assert ROLES[i] in ROLES;
    }
    assert RootItem(t, signed);
    var root := RootOf(t, signed).value;
    assert root.keys == map["k" := public];
    assert root.roles == map role | role in ROLES :: Policy(IdsOf(Obj(policy)), threshold);
  }

  lemma RootHolds(t: Tools, k: Signer)
    requires Base64Text(k.public) && t.keyOk(k.public)
    ensures Own(RootOwn(KeyFields(k.public), PolicyFields())) && RootOf(t, RootFields(k)) == Some(Single(k.public))
  {
    KeyHolds(t, k.public);
    PolicyHolds(map["k" := Obj(KeyFields(k.public))]);
    RootIsOwn(KeyFields(k.public), PolicyFields());
    RootIsSingle(t, k.expires, KeyFields(k.public), PolicyFields(), k.public, 1);
  }

  lemma RoleHolds(t: Tools, k: Signer, now: int, role: string, fields: Fields)
    requires Works(t, k, now) && role in ROLES && PositiveVersion(fields, "version").Some?
    requires TextOf(fields, "_type") == Some(role) && TextOf(fields, "expires") == Some(k.expires)
    ensures RoleOk(t, Single(k.public), role, EnvelopeFor(k, fields), now)
  {
    var e := EnvelopeFor(k, fields);
    assert e.signatures[0].keyId == "k" && t.signatureOk(k.public, e.signedText, e.signatures[0].value);
    assert SignedBy(t, Single(k.public), e, "k", 1);
    assert "k" in Signers(t, Single(k.public), Single(k.public).roles[role], e, 1);
  }

  // ---- Targets and revocations ----

  /** The digests a target carries: of its manifest and plan, of its notes, and of its compatibility. */
  datatype Digests = Digests(manifest: string, notes: string, compatibility: string)

  ghost function DigestsBy(sha: string -> string): Digests {
    Digests(sha("manifest"), sha("notes"), sha(Encode(Null)))
  }

  ghost predicate AllHex(d: Digests) {
    LowerHex(d.manifest) && LowerHex(d.notes) && LowerHex(d.compatibility)
  }

  function CustomValue(name: string, d: Digests): Json {
    if name == "release_id" then Str("r")
    else if name == "compatibility" then Null
    else if name == "release_notes_markdown" then Str("notes")
    else if name == "release_notes_digest" then Str(d.notes)
    else if name == "compatibility_digest" then Str(d.compatibility)
    else Str(d.manifest)
  }

  function Custom(d: Digests): Fields {
    map name | name in REQUIRED :: CustomValue(name, d)
  }

  function OneTarget(d: Digests): Json {
    Obj(map["custom" := Obj(Custom(d))])
  }

  lemma CustomAt(d: Digests, i: nat)
    requires i < |REQUIRED|
    ensures REQUIRED[i] in Custom(d) && Custom(d)[REQUIRED[i]] == CustomValue(REQUIRED[i], d)
  {
    assert REQUIRED[i] in REQUIRED;
  }

  lemma CustomDigests(d: Digests)
    ensures TextOf(Custom(d), DIGESTS[0]) == Some(d.manifest) && TextOf(Custom(d), DIGESTS[1]) == Some(d.manifest)
    ensures TextOf(Custom(d), DIGESTS[2]) == Some(d.manifest) && TextOf(Custom(d), DIGESTS[3]) == Some(d.notes)
    ensures TextOf(Custom(d), DIGESTS[4]) == Some(d.compatibility)
  {
    CustomAt(d, 3);
    CustomAt(d, 4);
    CustomAt(d, 5);
    CustomAt(d, 7);
    CustomAt(d, 9);
  }

  lemma CustomHolds(d: Digests)
    ensures forall i :: 0 <= i < |REQUIRED| ==> REQUIRED[i] in Custom(d)
    ensures TextOf(Custom(d), "release_id") == Some("r") && TextOf(Custom(d), "release_notes_markdown") == Some("notes")
    ensures "compatibility" in Custom(d) && Custom(d)["compatibility"] == Null && "release_key_id" !in Custom(d)
  {
    CustomAt(d, 1);
    CustomAt(d, 6);
    CustomAt(d, 8);
    forall i | 0 <= i < |REQUIRED|
      ensures REQUIRED[i] in Custom(d)
    {
      CustomAt(d, i);
    }
  }

  lemma HexIsDigest(d: string)
    requires LowerHex(d)
    ensures DigestText(d) && EqualDigest(d, d)
  {
    LowerHexStays(d);
    assert d[0] != 's';
  }

  lemma DigestFieldsHold(d: Digests)
    requires AllHex(d)
    ensures forall i :: 0 <= i < |DIGESTS| ==> DigestField(Custom(d), DIGESTS[i])
  {
    CustomDigests(d);
    HexIsDigest(d.manifest);
    HexIsDigest(d.notes);
    HexIsDigest(d.compatibility);
    forall i | 0 <= i < |DIGESTS|
      ensures DigestField(Custom(d), DIGESTS[i])
    {
      assert i == 0 || i == 1 || i == 2 || i == 3 || i == 4;
    }
  }

  /** A custom part with all its members makes a target. */
  lemma CustomMakesTarget(t: Tools, custom: Fields, release: string, notes: string, d: Digests)
    requires forall i :: 0 <= i < |REQUIRED| ==> REQUIRED[i] in custom
    requires forall i :: 0 <= i < |DIGESTS| ==> DigestField(custom, DIGESTS[i])
    requires TextOf(custom, "release_id") == Some(release) && release != ""
    requires TextOf(custom, "release_notes_markdown") == Some(notes) && "compatibility" in custom
    requires TextOf(custom, "release_notes_digest") == Some(d.notes) && EqualDigest(d.notes, t.sha(notes))
    requires TextOf(custom, "compatibility_digest") == Some(d.compatibility)
    requires EqualDigest(d.compatibility, t.sha(Encode(custom["compatibility"])))
    ensures TargetItem(t, Obj(map["custom" := Obj(custom)]))
  {
    assert FieldsOf(map["custom" := Obj(custom)], "custom") == Some(custom);
  }

  lemma CustomNamesTarget(custom: Fields, release: string, manifest: string)
    requires TextOf(custom, "release_id") == Some(release) && TextOf(custom, "manifest_digest") == Some(manifest)
    requires "release_key_id" !in custom
    ensures TargetOf("t", Obj(map["custom" := Obj(custom)])) == Target("t", release, manifest, "")
  {
    assert FieldsOf(map["custom" := Obj(custom)], "custom") == Some(custom);
  }

  lemma CustomIsValid(d: Digests)
    ensures Valid(OneTarget(d))
  {
    assert Valid(Obj(Custom(d)));
  }

  lemma TargetHolds(t: Tools, d: Digests)
    requires d == DigestsBy(t.sha) && AllHex(d)
    ensures Valid(OneTarget(d)) && TargetItem(t, OneTarget(d))
    ensures TargetOf("t", OneTarget(d)) == Target("t", "r", d.manifest, "")
  {
    assert DIGESTS[2] == "manifest_digest" && DIGESTS[3] == "release_notes_digest"
           && DIGESTS[4] == "compatibility_digest";
    CustomHolds(d);
    CustomDigests(d);
    DigestFieldsHold(d);
    HexIsDigest(d.notes);
    HexIsDigest(d.compatibility);
    CustomMakesTarget(t, Custom(d), "r", "notes", d);
    CustomNamesTarget(Custom(d), "r", d.manifest);
    CustomIsValid(d);
  }

  function TargetsOwn(target: Json): Fields {
    map["targets" := Obj(map["t" := target])]
  }

  lemma TargetsHold(t: Tools, expires: string, target: Json)
    requires Valid(target) && TargetItem(t, target)
    ensures Own(TargetsOwn(target)) && TargetsItem(t, Common("targets", expires, TargetsOwn(target)))
    ensures TargetsOf(FieldsOf(Common("targets", expires, TargetsOwn(target)), "targets").value)
         == {TargetOf("t", target)}
  {
    var items := map["t" := target];
    assert Valid(Obj(items));
    assert FieldsOf(Common("targets", expires, TargetsOwn(target)), "targets") == Some(items);
    assert "t" in items;
    assert TargetsOf(items) == {TargetOf("t", target)};
  }

  /** A revocation document that names these releases. */
  function Revoked(releases: seq<string>): Json {
    Arr(seq(|releases|, i requires 0 <= i < |releases| => Obj(map["release_id" := Str(releases[i])])))
  }

  function RevocationFields(expires: string, releases: seq<string>): Fields {
    Common("revocation", expires, map["revocations" := Revoked(releases)])
  }

  lemma RevokedHolds(expires: string, manifest: string, sig: string, releases: seq<string>)
    requires LowerHex(manifest) && "t" !in releases && "r" !in releases
    ensures Valid(Revoked(releases))
    ensures NothingRevoked(RevocationFields(expires, releases), [Signature("k", sig)], {Target("t", "r", manifest, "")})
  {
    var items := Revoked(releases).items;
    forall i | 0 <= i < |items|
      ensures Valid(items[i]) && RevocationItem(items[i]) && Blankable(items[i].fields, "release_id") == releases[i]
      ensures Blankable(items[i].fields, "manifest_digest") == "" && Blankable(items[i].fields, "key_id") == ""
    {
    }
  }

  // ---- The bundle ----

  ghost function TargetsFields(t: Tools, k: Signer): Fields {
    Common("targets", k.expires, TargetsOwn(OneTarget(DigestsBy(t.sha))))
  }

  /** The snapshot holds the digest of the targets, the timestamp that of the snapshot. */
  ghost function BindingFields(t: Tools, k: Signer, role: string, name: string, document: Envelope): Fields {
    Common(role, k.expires, Meta(name, MetaItem(t.sha(document.envelopeText))))
  }

  ghost function SnapshotFields(t: Tools, k: Signer): Fields {
    BindingFields(t, k, "snapshot", "targets.json", EnvelopeFor(k, TargetsFields(t, k)))
  }

  ghost function TimestampFields(t: Tools, k: Signer): Fields {
    BindingFields(t, k, "timestamp", "snapshot.json", EnvelopeFor(k, SnapshotFields(t, k)))
  }

  ghost function BundleOf(t: Tools, k: Signer, releases: seq<string>): Bundle {
    Bundle(
      Encode(Signed(k, RootFields(k))), Encode(Signed(k, TargetsFields(t, k))), Encode(Signed(k, SnapshotFields(t, k))),
      Encode(Signed(k, TimestampFields(t, k))), Encode(Signed(k, RevocationFields(k.expires, releases))))
  }

  ghost function DocumentsOf(t: Tools, k: Signer, releases: seq<string>): Documents {
    Documents(
      EnvelopeFor(k, RootFields(k)), EnvelopeFor(k, TargetsFields(t, k)), EnvelopeFor(k, SnapshotFields(t, k)),
      EnvelopeFor(k, TimestampFields(t, k)), EnvelopeFor(k, RevocationFields(k.expires, releases)), Single(k.public))
  }

  /** What a document of a role must give: it reads back, and stands for the role in version 1. */
  ghost predicate Stands(t: Tools, k: Signer, now: int, role: string, fields: Fields) {
    && EnvelopeOf(Encode(Signed(k, fields))) == Some(EnvelopeFor(k, fields))
    && RoleOk(t, Single(k.public), role, EnvelopeFor(k, fields), now)
    && PositiveVersion(fields, "version") == Some(1)
  }

  lemma DocumentHolds(t: Tools, k: Signer, now: int, role: string, own: Fields)
    requires Works(t, k, now) && role in ROLES && Own(own)
    ensures Stands(t, k, now, role, Common(role, k.expires, own))
  {
    CommonHolds(role, k.expires, own);
    SignedReads(t, k, now, Common(role, k.expires, own));
    RoleHolds(t, k, now, role, Common(role, k.expires, own));
  }

  lemma RoleNames()
    ensures "root" in ROLES && "targets" in ROLES && "snapshot" in ROLES
    ensures "timestamp" in ROLES && "revocation" in ROLES
  {
    assert ROLES[0] == "root" && ROLES[1] == "targets" && ROLES[2] == "snapshot" && ROLES[3] == "timestamp"
           && ROLES[4] == "revocation";
  }

  lemma RootStands(t: Tools, k: Signer, now: int)
    requires Works(t, k, now)
    ensures Stands(t, k, now, "root", RootFields(k)) && RootOf(t, RootFields(k)) == Some(Single(k.public))
  {
    RoleNames();
    RootHolds(t, k);
    DocumentHolds(t, k, now, "root", RootOwn(KeyFields(k.public), PolicyFields()));
  }

  lemma TargetsStand(t: Tools, k: Signer, now: int)
    requires Works(t, k, now)
    ensures Stands(t, k, now, "targets", TargetsFields(t, k))
  {
    RoleNames();
    TargetHolds(t, DigestsBy(t.sha));
    TargetsHold(t, k.expires, OneTarget(DigestsBy(t.sha)));
    DocumentHolds(t, k, now, "targets", TargetsOwn(OneTarget(DigestsBy(t.sha))));
  }

  lemma BindingStands(t: Tools, k: Signer, now: int, role: string, name: string, document: Envelope)
    requires Works(t, k, now) && role in ROLES
    ensures Stands(t, k, now, role, BindingFields(t, k, role, name, document))
    ensures Binds(t, document, EnvelopeFor(k, BindingFields(t, k, role, name, document)), name, 1)
  {
    var d := t.sha(document.envelopeText);
    assert LowerHex(d);
    MetaItemHolds(d);
    MetaIsOwn(name, MetaItem(d));
    DocumentHolds(t, k, now, role, Meta(name, MetaItem(d)));
    var binding := EnvelopeFor(k, BindingFields(t, k, role, name, document));
    MetaBinds(t, role, k.expires, name, MetaItem(d), document, binding);
  }

  lemma SnapshotAndTimestamp(t: Tools, k: Signer, now: int)
    requires Works(t, k, now)
    ensures Stands(t, k, now, "snapshot", SnapshotFields(t, k))
    ensures Stands(t, k, now, "timestamp", TimestampFields(t, k))
    ensures Binds(t, EnvelopeFor(k, TargetsFields(t, k)), EnvelopeFor(k, SnapshotFields(t, k)), "targets.json", 1)
    ensures Binds(t, EnvelopeFor(k, SnapshotFields(t, k)), EnvelopeFor(k, TimestampFields(t, k)), "snapshot.json", 1)
  {
    RoleNames();
    BindingStands(t, k, now, "snapshot", "targets.json", EnvelopeFor(k, TargetsFields(t, k)));
    BindingStands(t, k, now, "timestamp", "snapshot.json", EnvelopeFor(k, SnapshotFields(t, k)));
  }

  lemma RevocationStands(t: Tools, k: Signer, now: int, releases: seq<string>)
    requires Works(t, k, now) && "t" !in releases && "r" !in releases
    ensures Stands(t, k, now, "revocation", RevocationFields(k.expires, releases))
  {
    RoleNames();
    RevokedHolds(k.expires, t.sha("manifest"), "", releases);
    DocumentHolds(t, k, now, "revocation", map["revocations" := Revoked(releases)]);
  }

  lemma BundleIsOffered(t: Tools, k: Signer, now: int, releases: seq<string>)
    requires Works(t, k, now) && "t" !in releases && "r" !in releases
    ensures Offered(t, DocumentsOf(t, k, releases))
  {
    var d := DigestsBy(t.sha);
    TargetHolds(t, d);
    TargetsHold(t, k.expires, OneTarget(d));
    RevokedHolds(k.expires, d.manifest, k.sign(Encode(Obj(TargetsFields(t, k)))), releases);
  }

  /** Whatever releases are revoked, other than the one on offer, the bundle is accepted. */
  lemma BundleIsAccepted(t: Tools, k: Signer, now: int, releases: seq<string>)
    requires Works(t, k, now) && "t" !in releases && "r" !in releases
    ensures Acceptable(t, BundleOf(t, k, releases), DocumentsOf(t, k, releases), now)
  {
    RootStands(t, k, now);
    TargetsStand(t, k, now);
    SnapshotAndTimestamp(t, k, now);
    RevocationStands(t, k, now, releases);
    BundleIsOffered(t, k, now, releases);
  }

  /** Two accepted bundles that differ in nothing but what they revoke. */
  lemma SameTimestampOtherRevocations(t: Tools, k: Signer, now: int)
    requires Works(t, k, now)
    ensures var b1, b2 := BundleOf(t, k, []), BundleOf(t, k, ["x"]);
            && Accepted(t, b1, now) && Accepted(t, b2, now) && b2 == b1.(revocation := b2.revocation)
            && Canonical(b1.revocation) != Canonical(b2.revocation)
  {
    BundleIsAccepted(t, k, now, []);
    BundleIsAccepted(t, k, now, ["x"]);
    DifferentLists(t, k, now);
  }

  lemma DifferentLists(t: Tools, k: Signer, now: int)
    requires Works(t, k, now)
    ensures Canonical(BundleOf(t, k, []).revocation) != Canonical(BundleOf(t, k, ["x"]).revocation)
  {
    RevocationStands(t, k, now, []);
    RevocationStands(t, k, now, ["x"]);
    var f, g := RevocationFields(k.expires, []), RevocationFields(k.expires, ["x"]);
    CanonicalIsInjective(Encode(Signed(k, f)), Encode(Signed(k, g)));
    assert f["revocations"] != g["revocations"];
  }
}
