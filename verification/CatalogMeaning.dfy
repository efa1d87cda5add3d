/**
 What an accepted bundle says, as documents that are put together from their parts: what is
 signed, by which keys, until when, and what binds what.
 */
module CatalogMeaning {
  import opened CanonicalJson
  import opened CatalogRevocations
  import opened CatalogVerify
  import opened Strings
  import opened Wrappers

  predicate Has(j: Json, member: string, value: Json) {
    j.Obj? && member in j.fields && j.fields[member] == value
  }

  // ---- Texts ----

  /** A letter or digit by its code. */
  predicate IsAlphanumeric(c: char) {
    48 <= c as int <= 57 || 65 <= c as int <= 90 || 97 <= c as int <= 122
  }

  predicate Over(s: string, others: string) {
    forall i :: 0 <= i < |s| ==> IsAlphanumeric(s[i]) || s[i] in others
  }

  predicate IsKeyId(s: string) {
    1 <= |s| <= 128 && IsAlphanumeric(s[0]) && Over(s, "._:-")
  }

  predicate IsEncoded(s: string) {
    s != "" && Over(s, "-_")
  }

  lemma KeyIdMeans(s: string)
    ensures KeyIdText(s) <==> IsKeyId(s)
  {
  }

  lemma EncodedMeans(s: string)
    ensures Base64Text(s) <==> IsEncoded(s)
  {
  }

  /** The text names the digest, in either case: after the name of the hash, or alone if it does not start so. */
  predicate NamesDigest(text: string, d: string) {
    && |d| == 64
    && (SameName(text, "sha256:" + d) || (SameName(text, d) && !SameName(d[..7], "sha256:")))
  }

  ghost predicate SameDigest(a: string, b: string) {
    exists d :: NamesDigest(a, d) && NamesDigest(b, d)
  }

  lemma LowerTwice(s: string)
    ensures Lower(Lower(s)) == Lower(s)
  {
  }

  lemma LowerJoins(a: string, b: string)
    ensures Lower(a + b) == Lower(a) + Lower(b)
  {
  }

  lemma LowerPrefix(d: string)
    requires |d| >= 7
    ensures SameName(d[..7], "sha256:") <==> "sha256:" <= Lower(d)
  {
    SameNameMeansLower(d[..7], "sha256:");
    assert Lower("sha256:") == "sha256:";
    assert Lower(d[..7]) == Lower(d)[..7];
  }

  lemma NamedDigest(text: string, d: string)
    requires |d| == 64
    ensures NamesDigest(text, d) <==> WithoutPrefix(Lower(text)) == Lower(d)
  {
    var low := Lower(text);
    SameNameMeansLower(text, d);
    SameNameMeansLower(text, "sha256:" + d);
    LowerJoins("sha256:", d);
    LowerPrefix(d);
    assert Lower("sha256:") == "sha256:";
    assert ("sha256:" + Lower(d))[..7] == "sha256:" && ("sha256:" + Lower(d))[7..] == Lower(d);
    if "sha256:" <= low {
      assert low == "sha256:" + low[7..];
    }
  }

  lemma LowerStays(a: string, e: string)
    requires e == WithoutPrefix(Lower(a))
    ensures Lower(e) == e
  {
    LowerTwice(a);
    var low := Lower(a);
    if "sha256:" <= low {
      assert Lower(low)[7..] == Lower(low[7..]);
    }
  }

  lemma DigestsMean(a: string, b: string)
    ensures EqualDigest(a, b) <==> SameDigest(a, b)
  {
    var e := WithoutPrefix(Lower(a));
    if EqualDigest(a, b) {
      LowerStays(a, e);
      NamedDigest(a, e);
      NamedDigest(b, e);
    }
    if d :| NamesDigest(a, d) && NamesDigest(b, d) {
      NamedDigest(a, d);
      NamedDigest(b, d);
    }
  }

  // ---- Numbers ----

  function Decimal(n: nat): (d: string)
    ensures AllDigits(d)
  {
    var last := [('0' as int + n % 10) as char];
    if n < 10 then last else Decimal(n / 10) + last
  }

  lemma {:induction false} DecimalValue(n: nat)
    ensures NumberOf(Decimal(n)) == n
    decreases n
  {
    if n >= 10 {
      DecimalValue(n / 10);
      var d := Decimal(n);
      assert d[..|d| - 1] == Decimal(n / 10);
    }
  }

  lemma {:induction false} ValueDecimal(d: string)
    requires AllDigits(d) && (d[0] == '0' ==> d == "0")
    ensures Decimal(NumberOf(d)) == d
    ensures d != "0" ==> NumberOf(d) > 0
    decreases |d|
  {
    var n := d[|d| - 1] as int - '0' as int;
    if |d| > 1 {
      var front := d[..|d| - 1];
      ValueDecimal(front);
      assert NumberOf(d) == NumberOf(front) * 10 + n;
      assert NumberOf(d) / 10 == NumberOf(front) && NumberOf(d) % 10 == n;
      assert d == front + [d[|d| - 1]];
    }
  }

  /** A positive integer of 64 bits. */
  predicate IsCount(j: Json, n: nat) {
    j == Num(Decimal(n)) && 1 <= n < 0x1_0000_0000_0000_0000
  }

  lemma CountMeans(fields: Fields, member: string, n: nat)
    requires member in fields ==> Valid(fields[member])
    ensures PositiveVersion(fields, member) == Some(n) <==> member in fields && IsCount(fields[member], n)
  {
    if member in fields && fields[member].Num? && AllDigits(fields[member].text) {
      ValueDecimal(fields[member].text);
    }
    DecimalValue(n);
  }

  // ---- Envelopes ----

  function SignatureJson(s: Signature): Json {
    Obj(map["keyid" := Str(s.keyId), "sig" := Str(s.value)])
  }

  function SignaturesJson(signatures: seq<Signature>): (items: seq<Json>)
    ensures |items| == |signatures|
  {
    seq(|signatures|, i requires 0 <= i < |signatures| => SignatureJson(signatures[i]))
  }

  /** The document that signs this. */
  function Sealed(signed: Fields, signatures: seq<Signature>): Json {
    Obj(map["signed" := Obj(signed), "signatures" := Arr(SignaturesJson(signatures))])
  }

  predicate ProperSignatures(signatures: seq<Signature>) {
    && signatures != []
    && forall i :: 0 <= i < |signatures| ==> IsKeyId(signatures[i].keyId) && IsEncoded(signatures[i].value)
  }

  /** The text of the bundle is such a document, and its signatures and digests are about its canonical form. */
  ghost predicate IsSealed(raw: string, e: Envelope) {
    && Parse(raw) == Some(Sealed(e.signed, e.signatures)) && ProperSignatures(e.signatures)
    && e.signedText == Encode(Obj(e.signed)) && e.envelopeText == Encode(Sealed(e.signed, e.signatures))
  }

  lemma TwoMembers(fields: Fields, a: string, b: string)
    requires a != b && a in fields && b in fields && |fields| == 2
    ensures fields == map[a := fields[a], b := fields[b]]
  {
    var both, rest := {a, b}, fields.Keys - {a, b};
    assert fields.Keys == both + rest;
    assert |fields| == |fields.Keys| == |both| + |rest|;
    SameEntries(fields, map[a := fields[a], b := fields[b]]);
  }

  lemma SignatureMeans(j: Json, s: Signature)
    ensures SignatureItem(j) && SignatureOf(j) == s <==>
            j == SignatureJson(s) && IsKeyId(s.keyId) && IsEncoded(s.value)
  {
    KeyIdMeans(s.keyId);
    EncodedMeans(s.value);
    if SignatureItem(j) {
      TwoMembers(j.fields, "keyid", "sig");
    }
  }

  ghost predicate AllSignatures(items: seq<Json>) {
    forall i :: 0 <= i < |items| ==> SignatureItem(items[i])
  }

  lemma SignaturesMean(items: seq<Json>, signatures: seq<Signature>)
    ensures items != [] && AllSignatures(items) && SignaturesOf(items) == signatures
       <==> items == SignaturesJson(signatures) && ProperSignatures(signatures)
  {
    if |items| == |signatures| {
      forall i | 0 <= i < |items|
        ensures SignatureItem(items[i]) && SignaturesOf(items)[i] == signatures[i] <==>
                && items[i] == SignaturesJson(signatures)[i] && IsKeyId(signatures[i].keyId)
                && IsEncoded(signatures[i].value)
      {
        SignatureMeans(items[i], signatures[i]);
      }
    }
  }

  lemma EnvelopeItemMeans(j: Json, signed: Fields, signatures: seq<Signature>)
    ensures EnvelopeItem(j) && j.fields["signed"].fields == signed
            && SignaturesOf(j.fields["signatures"].items) == signatures
       <==> j == Sealed(signed, signatures) && ProperSignatures(signatures)
  {
    if EnvelopeItem(j) {
      TwoMembers(j.fields, "signed", "signatures");
      SignaturesMean(j.fields["signatures"].items, signatures);
    }
    SignaturesMean(SignaturesJson(signatures), signatures);
  }

  lemma EnvelopeMeans(raw: string, e: Envelope)
    ensures EnvelopeOf(raw) == Some(e) <==> IsSealed(raw, e)
  {
    if Parse(raw).Some? {
      EnvelopeItemMeans(Parse(raw).value, e.signed, e.signatures);
    }
  }

  // ---- The root ----

  /** An Ed25519 key with this public part. */
  ghost predicate HoldsKey(t: Tools, id: string, item: Json, public: string) {
    && IsKeyId(id) && Says(item, "keytype", "ed25519") && Says(item, "scheme", "ed25519")
    && "keyval" in item.fields && Says(item.fields["keyval"], "public", public)
    && IsEncoded(public) && t.keyOk(public)
  }

  function TextsJson(texts: seq<string>): (items: seq<Json>)
    ensures |items| == |texts|
  {
    seq(|texts|, i requires 0 <= i < |texts| => Str(texts[i]))
  }

  /** The role is given to these different keys of the root, and takes so many of them. */
  ghost predicate Assigns(keys: Fields, item: Json, p: Policy) {
    && Has(item, "keyids", Arr(TextsJson(p.keyIds))) && "threshold" in item.fields
    && IsCount(item.fields["threshold"], p.threshold)
    && p.keyIds != [] && Distinct(p.keyIds) && p.threshold <= |p.keyIds|
    && forall i :: 0 <= i < |p.keyIds| ==> IsKeyId(p.keyIds[i]) && p.keyIds[i] in keys
  }

  ghost predicate KeysGovern(t: Tools, keys: Fields, publics: map<string, string>) {
    && keys != map[] && publics.Keys == keys.Keys
    && forall id :: id in keys && id in publics ==> HoldsKey(t, id, keys[id], publics[id])
  }

  ghost predicate RolesGovern(keys: Fields, roles: Fields, policies: map<string, Policy>) {
    && policies.Keys == roles.Keys && {"root", "targets", "snapshot", "timestamp", "revocation"} <= roles.Keys
    && forall role :: role in roles && role in policies ==> Assigns(keys, roles[role], policies[role])
  }

  ghost predicate Governs(t: Tools, signed: Fields, root: Root) {
    exists keys, roles :: Has(Obj(signed), "keys", Obj(keys)) && Has(Obj(signed), "roles", Obj(roles))
                          && KeysGovern(t, keys, root.keys) && RolesGovern(keys, roles, root.roles)
  }

  lemma KeyMeans(t: Tools, id: string, j: Json, public: string)
    ensures KeyItem(t, id, j) && j.fields["keyval"].fields["public"].s == public <==> HoldsKey(t, id, j, public)
  {
    KeyIdMeans(id);
    EncodedMeans(public);
  }

  lemma TextsMean(items: seq<Json>, texts: seq<string>)
    requires forall i :: 0 <= i < |items| ==> items[i].Str?
    ensures items == TextsJson(texts) <==> |items| == |texts| && forall i :: 0 <= i < |items| ==> items[i].s == texts[i]
  {
    if |items| == |texts| && forall i :: 0 <= i < |items| ==> items[i].s == texts[i] {
      forall i | 0 <= i < |items|
        ensures items[i] == TextsJson(texts)[i]
      {
      }
    }
  }

  lemma AssignsMeans(keys: Fields, j: Json, p: Policy)
    requires Valid(j)
    ensures Assigns(keys, j, p) ==>
              RoleItem(keys, j) && IdsOf(j) == p.keyIds && PositiveVersion(j.fields, "threshold") == Some(p.threshold)
  {
    if Assigns(keys, j, p) {
      var ids := j.fields["keyids"].items;
      CountMeans(j.fields, "threshold", p.threshold);
      forall i | 0 <= i < |ids|
        ensures ids[i].Str? && ids[i].s == p.keyIds[i] && KeyIdText(ids[i].s)
      {
        KeyIdMeans(p.keyIds[i]);
      }
      assert IdsOf(j) == p.keyIds;
    }
  }

  lemma RoleItemAssigns(keys: Fields, j: Json)
    requires Valid(j) && RoleItem(keys, j)
    ensures Assigns(keys, j, Policy(IdsOf(j), PositiveVersion(j.fields, "threshold").value))
  {
    var ids, texts := j.fields["keyids"].items, IdsOf(j);
    var n := PositiveVersion(j.fields, "threshold").value;
    CountMeans(j.fields, "threshold", n);
    TextsMean(ids, texts);
    forall i | 0 <= i < |texts|
      ensures IsKeyId(texts[i]) && texts[i] in keys
    {
      KeyIdMeans(texts[i]);
    }
    forall i, k | 0 <= i < k < |texts|
      ensures texts[i] != texts[k]
    {
      assert ids[i] != ids[k];
    }
  }

  lemma AllRoles(roles: Fields)
    ensures (forall i :: 0 <= i < |ROLES| ==> ROLES[i] in roles) <==>
            {"root", "targets", "snapshot", "timestamp", "revocation"} <= roles.Keys
  {
    if forall i :: 0 <= i < |ROLES| ==> ROLES[i] in roles {
      assert ROLES[0] in roles && ROLES[1] in roles && ROLES[2] in roles && ROLES[3] in roles && ROLES[4] in roles;
    }
  }

  /** What the parser of the root demands of the keys, and what it makes of them. */
  ghost predicate KeysRead(t: Tools, keys: Fields, publics: map<string, string>) {
    && keys != map[] && publics.Keys == keys.Keys
    && forall id :: id in keys && id in publics ==>
                      KeyItem(t, id, keys[id]) && keys[id].fields["keyval"].fields["public"].s == publics[id]
  }

  ghost predicate RoleRead(keys: Fields, item: Json, p: Policy) {
    RoleItem(keys, item) && p == Policy(IdsOf(item), PositiveVersion(item.fields, "threshold").value)
  }

  ghost predicate RolesRead(keys: Fields, roles: Fields, policies: map<string, Policy>) {
    && policies.Keys == roles.Keys && (forall i :: 0 <= i < |ROLES| ==> ROLES[i] in roles)
    && forall role :: role in roles && role in policies ==> RoleRead(keys, roles[role], policies[role])
  }

  lemma KeysMean(t: Tools, keys: Fields, publics: map<string, string>)
    ensures KeysRead(t, keys, publics) <==> KeysGovern(t, keys, publics)
  {
    forall id | id in keys && id in publics
      ensures KeyItem(t, id, keys[id]) && keys[id].fields["keyval"].fields["public"].s == publics[id]
         <==> HoldsKey(t, id, keys[id], publics[id])
    {
      KeyMeans(t, id, keys[id], publics[id]);
    }
  }

  lemma RoleMeans(keys: Fields, item: Json, p: Policy)
    requires Valid(item)
    ensures RoleRead(keys, item, p) <==> Assigns(keys, item, p)
  {
    AssignsMeans(keys, item, p);
    if RoleItem(keys, item) {
      RoleItemAssigns(keys, item);
    }
  }

  lemma RolesMean(keys: Fields, roles: Fields, policies: map<string, Policy>)
    requires Valid(Obj(roles))
    ensures RolesRead(keys, roles, policies) <==> RolesGovern(keys, roles, policies)
  {
    AllRoles(roles);
    forall role | role in roles && role in policies
      ensures RoleRead(keys, roles[role], policies[role]) <==> Assigns(keys, roles[role], policies[role])
    {
      RoleMeans(keys, roles[role], policies[role]);
    }
  }

  lemma RootParts(t: Tools, signed: Fields) returns (keys: Fields, roles: Fields)
    requires RootItem(t, signed)
    ensures Has(Obj(signed), "keys", Obj(keys)) && Has(Obj(signed), "roles", Obj(roles)) && keys != map[]
    ensures forall id :: id in keys ==> KeyItem(t, id, keys[id])
    ensures forall role :: role in roles ==> RoleItem(keys, roles[role])
    ensures forall i :: 0 <= i < |ROLES| ==> ROLES[i] in roles
  {
    keys, roles := signed["keys"].fields, signed["roles"].fields;
  }

  lemma ReadKeys(t: Tools, signed: Fields, keys: Fields, root: Root)
    requires RootOf(t, signed) == Some(root) && Has(Obj(signed), "keys", Obj(keys)) && keys != map[]
    requires forall id :: id in keys ==> KeyItem(t, id, keys[id])
    ensures KeysRead(t, keys, root.keys)
  {
  }

  lemma ReadRoles(t: Tools, signed: Fields, keys: Fields, roles: Fields, root: Root)
    requires RootOf(t, signed) == Some(root) && Has(Obj(signed), "roles", Obj(roles))
    requires forall role :: role in roles ==> RoleItem(keys, roles[role])
    requires forall i :: 0 <= i < |ROLES| ==> ROLES[i] in roles
    ensures RolesRead(keys, roles, root.roles)
  {
  }

  lemma ReadRoot(t: Tools, signed: Fields, root: Root) returns (keys: Fields, roles: Fields)
    requires RootOf(t, signed) == Some(root)
    ensures Has(Obj(signed), "keys", Obj(keys)) && Has(Obj(signed), "roles", Obj(roles))
    ensures KeysRead(t, keys, root.keys) && RolesRead(keys, roles, root.roles)
  {
    keys, roles := RootParts(t, signed);
    ReadKeys(t, signed, keys, root);
    ReadRoles(t, signed, keys, roles, root);
  }

  lemma RootIsRead(t: Tools, signed: Fields, keys: Fields, roles: Fields, root: Root)
    requires Has(Obj(signed), "keys", Obj(keys)) && Has(Obj(signed), "roles", Obj(roles))
    requires KeysRead(t, keys, root.keys) && RolesRead(keys, roles, root.roles)
    ensures RootOf(t, signed) == Some(root)
  {
    assert RootItem(t, signed);
    var read := RootOf(t, signed).value;
    SameEntries(read.keys, root.keys);
    SameEntries(read.roles, root.roles);
  }

  lemma ValidMember(fields: Fields, member: string)
    requires Valid(Obj(fields)) && member in fields
    ensures Valid(fields[member])
  {
  }

  lemma ReadIsGoverned(t: Tools, signed: Fields, root: Root)
    requires Valid(Obj(signed)) && RootOf(t, signed) == Some(root)
    ensures Governs(t, signed, root)
  {
    var keys, roles := ReadRoot(t, signed, root);
    ValidMember(signed, "roles");
    KeysMean(t, keys, root.keys);
    RolesMean(keys, roles, root.roles);
  }

  lemma GovernedIsRead(t: Tools, signed: Fields, root: Root)
    requires Valid(Obj(signed)) && Governs(t, signed, root)
    ensures RootOf(t, signed) == Some(root)
  {
    var keys, roles :| Has(Obj(signed), "keys", Obj(keys)) && Has(Obj(signed), "roles", Obj(roles))
                       && KeysGovern(t, keys, root.keys) && RolesGovern(keys, roles, root.roles);
    ValidMember(signed, "roles");
    KeysMean(t, keys, root.keys);
    RolesMean(keys, roles, root.roles);
    RootIsRead(t, signed, keys, roles, root);
  }

  /** The root is read exactly if it governs: proper keys, and all five roles given to some of them. */
  lemma RootMeans(t: Tools, signed: Fields, root: Root)
    requires Valid(Obj(signed))
    ensures RootOf(t, signed) == Some(root) <==> Governs(t, signed, root)
  {
    if Governs(t, signed, root) {
      GovernedIsRead(t, signed, root);
    } else if RootOf(t, signed) == Some(root) {
      ReadIsGoverned(t, signed, root);
    }
  }

  // ---- Roles ----

  ghost predicate SignedWith(t: Tools, root: Root, e: Envelope, key: string) {
    && key in root.keys
    && exists i :: 0 <= i < |e.signatures| && e.signatures[i].keyId == key
                   && t.signatureOk(root.keys[key], Encode(Obj(e.signed)), e.signatures[i].value)
  }

  /** As many different keys of the role as it takes have signed. */
  ghost predicate EnoughKeys(t: Tools, root: Root, role: string, e: Envelope) {
    && role in root.roles
    && exists signers: set<string> ::
         |signers| >= root.roles[role].threshold >= 1
         && forall key :: key in signers ==> key in root.roles[role].keyIds && SignedWith(t, root, e, key)
  }

  lemma SignersMean(t: Tools, root: Root, role: string, e: Envelope)
    requires e.signedText == Encode(Obj(e.signed))
    ensures EnoughSigners(t, root, role, e) <==> EnoughKeys(t, root, role, e)
  {
    if role in root.roles {
      var policy, n := root.roles[role], |e.signatures|;
      var all := Signers(t, root, policy, e, n);
      forall key | key in policy.keyIds
        ensures SignedBy(t, root, e, key, n) <==> SignedWith(t, root, e, key)
      {
      }
      if EnoughSigners(t, root, role, e) {
        assert forall key :: key in all ==> key in policy.keyIds && SignedWith(t, root, e, key);
      }
      if signers: set<string> :|
        |signers| >= policy.threshold >= 1
        && forall key :: key in signers ==> key in policy.keyIds && SignedWith(t, root, e, key) {
        assert signers <= all;
        SubsetSize(signers, all);
      }
    }
  }

  /** Of its role, with a version, not expired, and signed. */
  ghost predicate InForce(t: Tools, root: Root, role: string, e: Envelope, now: int) {
    && Says(Obj(e.signed), "_type", role)
    && (exists n :: "version" in e.signed && IsCount(e.signed["version"], n))
    && (exists text, at :: Says(Obj(e.signed), "expires", text) && t.expiry(text) == Some(at) && now < at)
    && EnoughKeys(t, root, role, e)
  }

  lemma InForceMeans(t: Tools, root: Root, role: string, e: Envelope, now: int)
    requires e.signedText == Encode(Obj(e.signed)) && Valid(Obj(e.signed))
    ensures RoleOk(t, root, role, e, now) <==> InForce(t, root, role, e, now)
  {
    SignersMean(t, root, role, e);
    VersionMeans(e.signed);
  }

  lemma VersionMeans(fields: Fields)
    requires Valid(Obj(fields))
    ensures PositiveVersion(fields, "version").Some? <==>
            exists n :: "version" in fields && IsCount(fields["version"], n)
    ensures forall n: nat :: PositiveVersion(fields, "version") == Some(n) <==>
                             "version" in fields && IsCount(fields["version"], n)
  {
    forall n: nat
      ensures PositiveVersion(fields, "version") == Some(n) <==> "version" in fields && IsCount(fields["version"], n)
    {
      if "version" in fields {
        ValidMember(fields, "version");
      }
      CountMeans(fields, "version", n);
    }
  }

  // ---- Bindings ----

  ghost predicate PinsIn(
    t: Tools, binding: Fields, name: string, text: string, version: nat, meta: Fields, item: Fields, hashes: Fields,
    digest: string)
  {
    && Has(Obj(binding), "meta", Obj(meta)) && Has(Obj(meta), name, Obj(item))
    && "version" in item && IsCount(item["version"], version)
    && Has(Obj(item), "hashes", Obj(hashes)) && Says(Obj(hashes), "sha256", digest)
    && SameDigest(digest, t.sha(text))
  }

  /** The entry of this name pins the version and the digest of the document's canonical text. */
  ghost predicate Pins(t: Tools, binding: Fields, name: string, text: string, version: nat) {
    exists meta, item, hashes, digest :: PinsIn(t, binding, name, text, version, meta, item, hashes, digest)
  }

  lemma PinnedItem(binding: Fields, name: string, meta: Fields, item: Fields)
    requires Valid(Obj(binding)) && Has(Obj(binding), "meta", Obj(meta)) && Has(Obj(meta), name, Obj(item))
    ensures Valid(Obj(item))
  {
    ValidMember(binding, "meta");
    ValidMember(meta, name);
  }

  lemma BindsPins(t: Tools, document: Envelope, binding: Envelope, name: string, version: nat)
    requires Valid(Obj(binding.signed)) && Binds(t, document, binding, name, version)
    ensures Pins(t, binding.signed, name, document.envelopeText, version)
  {
    var meta := binding.signed["meta"].fields;
    var item := meta[name].fields;
    var hashes := item["hashes"].fields;
    var digest := hashes["sha256"].s;
    PinnedItem(binding.signed, name, meta, item);
    VersionMeans(item);
    DigestsMean(digest, t.sha(document.envelopeText));
    assert PinsIn(t, binding.signed, name, document.envelopeText, version, meta, item, hashes, digest);
  }

  lemma PinsBinds(t: Tools, document: Envelope, binding: Envelope, name: string, version: nat)
    requires Valid(Obj(binding.signed)) && Pins(t, binding.signed, name, document.envelopeText, version)
    ensures Binds(t, document, binding, name, version)
  {
    var meta, item, hashes, digest :|
      PinsIn(t, binding.signed, name, document.envelopeText, version, meta, item, hashes, digest);
    PinnedItem(binding.signed, name, meta, item);
    VersionMeans(item);
    DigestsMean(digest, t.sha(document.envelopeText));
  }

  // ---- Targets ----

  ghost predicate SaysDigest(custom: Fields, member: string) {
    exists text :: Says(Obj(custom), member, text) && IsManifestDigest(text)
  }

  /** The member is the digest of this text. */
  ghost predicate SaysDigestOf(t: Tools, custom: Fields, member: string, content: string) {
    exists text :: Says(Obj(custom), member, text) && SameDigest(text, t.sha(content))
  }

  ghost predicate Describes(t: Tools, custom: Fields) {
    && "product_id" in custom && "version" in custom && "compatibility" in custom
    && (exists id :: Says(Obj(custom), "release_id", id) && id != "")
    && SaysDigest(custom, "plan_digest") && SaysDigest(custom, "artifact_digest")
    && SaysDigest(custom, "manifest_digest") && SaysDigest(custom, "release_notes_digest")
    && SaysDigest(custom, "compatibility_digest")
    && (exists notes :: Says(Obj(custom), "release_notes_markdown", notes)
                        && SaysDigestOf(t, custom, "release_notes_digest", notes))
    && SaysDigestOf(t, custom, "compatibility_digest", Encode(custom["compatibility"]))
  }

  ghost predicate ProperTarget(t: Tools, j: Json) {
    exists custom :: Has(j, "custom", Obj(custom)) && Describes(t, custom)
  }

  lemma DigestFieldMeans(custom: Fields, member: string)
    ensures DigestField(custom, member) <==> SaysDigest(custom, member)
  {
    if TextOf(custom, member).Some? {
      DigestTextMeans(TextOf(custom, member).value);
      assert Says(Obj(custom), member, TextOf(custom, member).value);
    }
  }

  lemma DigestOfMeans(t: Tools, custom: Fields, member: string, content: string)
    ensures SaysDigestOf(t, custom, member, content) <==>
            member in custom && custom[member].Str? && EqualDigest(custom[member].s, t.sha(content))
  {
    if member in custom && custom[member].Str? {
      DigestsMean(custom[member].s, t.sha(content));
      assert Says(Obj(custom), member, custom[member].s);
    }
  }

  lemma AllRequired(custom: Fields)
    ensures (forall i :: 0 <= i < |REQUIRED| ==> REQUIRED[i] in custom) <==>
            && "product_id" in custom && "release_id" in custom && "version" in custom && "plan_digest" in custom
            && "artifact_digest" in custom && "manifest_digest" in custom && "release_notes_markdown" in custom
            && "release_notes_digest" in custom && "compatibility" in custom && "compatibility_digest" in custom
  {
    if forall i :: 0 <= i < |REQUIRED| ==> REQUIRED[i] in custom {
      assert REQUIRED[0] in custom && REQUIRED[1] in custom && REQUIRED[2] in custom && REQUIRED[3] in custom
             && REQUIRED[4] in custom && REQUIRED[5] in custom && REQUIRED[6] in custom && REQUIRED[7] in custom
             && REQUIRED[8] in custom && REQUIRED[9] in custom;
    }
  }

  lemma DigestNames(i: nat)
    requires i < |DIGESTS|
    ensures DIGESTS[0] == "plan_digest" && DIGESTS[1] == "artifact_digest" && DIGESTS[2] == "manifest_digest"
    ensures DIGESTS[3] == "release_notes_digest" && DIGESTS[4] == "compatibility_digest"
    ensures i == 0 || i == 1 || i == 2 || i == 3 || i == 4
  {
  }

  lemma AllFive(ok: seq<bool>)
    requires |ok| == 5
    ensures (forall i :: 0 <= i < |ok| ==> ok[i]) <==> ok[0] && ok[1] && ok[2] && ok[3] && ok[4]
  {
  }

  lemma FiveDigests(custom: Fields)
    ensures (forall i :: 0 <= i < |DIGESTS| ==> DigestField(custom, DIGESTS[i])) <==>
            && DigestField(custom, DIGESTS[0]) && DigestField(custom, DIGESTS[1]) && DigestField(custom, DIGESTS[2])
            && DigestField(custom, DIGESTS[3]) && DigestField(custom, DIGESTS[4])
  {
    var ok := seq(|DIGESTS|, i requires 0 <= i < |DIGESTS| => DigestField(custom, DIGESTS[i]));
    assert forall i :: 0 <= i < |ok| ==> ok[i] == DigestField(custom, DIGESTS[i]);
    AllFive(ok);
  }

  lemma AllDigestFields(custom: Fields)
    ensures (forall i :: 0 <= i < |DIGESTS| ==> DigestField(custom, DIGESTS[i])) <==>
            && SaysDigest(custom, "plan_digest") && SaysDigest(custom, "artifact_digest")
            && SaysDigest(custom, "manifest_digest") && SaysDigest(custom, "release_notes_digest")
            && SaysDigest(custom, "compatibility_digest")
  {
    DigestNames(0);
    FiveDigests(custom);
    DigestFieldMeans(custom, "plan_digest");
    DigestFieldMeans(custom, "artifact_digest");
    DigestFieldMeans(custom, "manifest_digest");
    DigestFieldMeans(custom, "release_notes_digest");
    DigestFieldMeans(custom, "compatibility_digest");
  }

  lemma DescribedTarget(t: Tools, j: Json, custom: Fields)
    requires Has(j, "custom", Obj(custom))
    ensures TargetItem(t, j) <==> Describes(t, custom)
  {
    AllRequired(custom);
    AllDigestFields(custom);
    if TextOf(custom, "release_notes_markdown").Some? {
      var notes := custom["release_notes_markdown"].s;
      DigestOfMeans(t, custom, "release_notes_digest", notes);
      assert Says(Obj(custom), "release_notes_markdown", notes);
    }
    if "compatibility" in custom {
      DigestOfMeans(t, custom, "compatibility_digest", Encode(custom["compatibility"]));
    }
    if TextOf(custom, "release_id").Some? {
      assert Says(Obj(custom), "release_id", custom["release_id"].s);
    }
  }

  lemma TargetMeans(t: Tools, j: Json)
    ensures TargetItem(t, j) <==> ProperTarget(t, j)
  {
    if j.Obj? && FieldsOf(j.fields, "custom").Some? {
      var custom := FieldsOf(j.fields, "custom").value;
      assert Has(j, "custom", Obj(custom));
      DescribedTarget(t, j, custom);
    }
    if custom :| Has(j, "custom", Obj(custom)) && Describes(t, custom) {
      DescribedTarget(t, j, custom);
    }
  }

  ghost predicate AllItems(t: Tools, targets: Fields) {
    forall name :: name in targets ==> TargetItem(t, targets[name])
  }

  ghost predicate AllProper(t: Tools, targets: Fields) {
    forall name :: name in targets ==> ProperTarget(t, targets[name])
  }

  ghost predicate OffersTargets(t: Tools, signed: Fields, targets: Fields) {
    Has(Obj(signed), "targets", Obj(targets)) && targets != map[] && AllProper(t, targets)
  }

  lemma EveryTarget(t: Tools, targets: Fields)
    ensures AllItems(t, targets) <==> AllProper(t, targets)
  {
    forall name | name in targets
      ensures TargetItem(t, targets[name]) <==> ProperTarget(t, targets[name])
    {
      TargetMeans(t, targets[name]);
    }
  }

  lemma TargetsParts(t: Tools, signed: Fields, targets: Fields)
    requires FieldsOf(signed, "targets") == Some(targets)
    ensures TargetsItem(t, signed) <==> targets != map[] && AllItems(t, targets)
  {
  }

  lemma TargetsMean(t: Tools, signed: Fields, targets: Fields)
    ensures OffersTargets(t, signed, targets) <==>
            FieldsOf(signed, "targets") == Some(targets) && TargetsItem(t, signed)
  {
    if FieldsOf(signed, "targets") == Some(targets) {
      TargetsParts(t, signed, targets);
      EveryTarget(t, targets);
    }
  }

  // ---- The bundle ----

  /** The five documents, in the order in which they are signed, pinned and offered. */
  ghost predicate Vouched(t: Tools, b: Bundle, d: Documents, now: int) {
    && IsSealed(b.root, d.root) && IsSealed(b.targets, d.targets) && IsSealed(b.snapshot, d.snapshot)
    && IsSealed(b.timestamp, d.timestamp) && IsSealed(b.revocation, d.revocation)
    && Governs(t, d.root.signed, d.policy)
    && InForce(t, d.policy, "root", d.root, now) && InForce(t, d.policy, "targets", d.targets, now)
    && InForce(t, d.policy, "snapshot", d.snapshot, now) && InForce(t, d.policy, "timestamp", d.timestamp, now)
    && InForce(t, d.policy, "revocation", d.revocation, now)
    && PinsVersion(t, d.snapshot.signed, "targets.json", d.targets)
    && PinsVersion(t, d.timestamp.signed, "snapshot.json", d.snapshot)
    && exists targets, items :: && OffersTargets(t, d.targets.signed, targets)
                                && ListsRevocations(d.revocation.signed, items)
                                && NamesNothing(items, d.targets.signatures, targets)
  }

  /** The binding document pins this document with the version that it has. */
  ghost predicate PinsVersion(t: Tools, binding: Fields, name: string, document: Envelope) {
    exists n :: "version" in document.signed && IsCount(document.signed["version"], n)
                && Pins(t, binding, name, document.envelopeText, n)
  }

  lemma SealedIsValid(raw: string, e: Envelope)
    requires IsSealed(raw, e)
    ensures Valid(Obj(e.signed))
  {
    ParsedIsValid(raw);
    var whole := Sealed(e.signed, e.signatures);
    assert Valid(whole) && whole.fields["signed"] == Obj(e.signed);
  }

  lemma PinsVersionMeans(t: Tools, binding: Envelope, name: string, document: Envelope)
    requires Valid(Obj(binding.signed)) && Valid(Obj(document.signed))
    requires PositiveVersion(document.signed, "version").Some?
    ensures PinsVersion(t, binding.signed, name, document) <==>
            Binds(t, document, binding, name, PositiveVersion(document.signed, "version").value)
  {
    var n := PositiveVersion(document.signed, "version").value;
    VersionMeans(document.signed);
    if Binds(t, document, binding, name, n) {
      BindsPins(t, document, binding, name, n);
    }
    if PinsVersion(t, binding.signed, name, document) {
      PinsBinds(t, document, binding, name, n);
    }
  }

  lemma OfferedMeans(t: Tools, d: Documents)
    ensures Offered(t, d) <==>
            exists targets, items :: && OffersTargets(t, d.targets.signed, targets)
                                     && ListsRevocations(d.revocation.signed, items)
                                     && NamesNothing(items, d.targets.signatures, targets)
  {
    if FieldsOf(d.targets.signed, "targets").Some? {
      var targets := FieldsOf(d.targets.signed, "targets").value;
      TargetsMean(t, d.targets.signed, targets);
      RevocationsMean(d.revocation.signed, d.targets.signatures, targets);
    }
    if targets, items :| && OffersTargets(t, d.targets.signed, targets) && ListsRevocations(d.revocation.signed, items)
                         && NamesNothing(items, d.targets.signatures, targets) {
      TargetsMean(t, d.targets.signed, targets);
      RevocationsMean(d.revocation.signed, d.targets.signatures, targets);
    }
  }

  ghost predicate AllSealed(b: Bundle, d: Documents) {
    && IsSealed(b.root, d.root) && IsSealed(b.targets, d.targets) && IsSealed(b.snapshot, d.snapshot)
    && IsSealed(b.timestamp, d.timestamp) && IsSealed(b.revocation, d.revocation)
  }

  lemma ReadsMeans(t: Tools, b: Bundle, d: Documents)
    ensures Reads(t, b, d) <==> AllSealed(b, d) && Governs(t, d.root.signed, d.policy)
  {
    EnvelopeMeans(b.root, d.root);
    EnvelopeMeans(b.targets, d.targets);
    EnvelopeMeans(b.snapshot, d.snapshot);
    EnvelopeMeans(b.timestamp, d.timestamp);
    EnvelopeMeans(b.revocation, d.revocation);
    if IsSealed(b.root, d.root) {
      SealedIsValid(b.root, d.root);
      RootMeans(t, d.root.signed, d.policy);
    }
  }

  ghost predicate SignedPartsValid(d: Documents) {
    && Valid(Obj(d.root.signed)) && Valid(Obj(d.targets.signed)) && Valid(Obj(d.snapshot.signed))
    && Valid(Obj(d.timestamp.signed)) && Valid(Obj(d.revocation.signed))
  }

  lemma SealedAreValid(b: Bundle, d: Documents)
    requires AllSealed(b, d)
    ensures SignedPartsValid(d)
  {
    SealedIsValid(b.root, d.root);
    SealedIsValid(b.targets, d.targets);
    SealedIsValid(b.snapshot, d.snapshot);
    SealedIsValid(b.timestamp, d.timestamp);
    SealedIsValid(b.revocation, d.revocation);
  }

  lemma RolesOkMeans(t: Tools, b: Bundle, d: Documents, now: int)
    requires AllSealed(b, d) && SignedPartsValid(d)
    ensures RolesOk(t, d, now) <==>
            && InForce(t, d.policy, "root", d.root, now) && InForce(t, d.policy, "targets", d.targets, now)
            && InForce(t, d.policy, "snapshot", d.snapshot, now) && InForce(t, d.policy, "timestamp", d.timestamp, now)
            && InForce(t, d.policy, "revocation", d.revocation, now)
  {
    InForceMeans(t, d.policy, "root", d.root, now);
    InForceMeans(t, d.policy, "targets", d.targets, now);
    InForceMeans(t, d.policy, "snapshot", d.snapshot, now);
    InForceMeans(t, d.policy, "timestamp", d.timestamp, now);
    InForceMeans(t, d.policy, "revocation", d.revocation, now);
  }

  /** Acceptable documents are exactly those that are sealed, governed, in force, pinned, and offer nothing revoked. */
  lemma AcceptableMeans(t: Tools, b: Bundle, d: Documents, now: int)
    ensures Acceptable(t, b, d, now) <==> Vouched(t, b, d, now)
  {
    ReadsMeans(t, b, d);
    if AllSealed(b, d) {
      SealedAreValid(b, d);
      RolesOkMeans(t, b, d, now);
      OfferedMeans(t, d);
      if RolesOk(t, d, now) {
        PinsVersionMeans(t, d.snapshot, "targets.json", d.targets);
        PinsVersionMeans(t, d.timestamp, "snapshot.json", d.snapshot);
      }
    }
  }

  /** `Verify` accepts exactly the bundles for which there are such documents. */
  lemma AcceptedMeans(t: Tools, b: Bundle, now: int)
    ensures Accepted(t, b, now) <==> exists d :: Vouched(t, b, d, now)
  {
    if d :| Acceptable(t, b, d, now) {
      AcceptableMeans(t, b, d, now);
    }
    if d :| Vouched(t, b, d, now) {
      AcceptableMeans(t, b, d, now);
    }
  }
}
