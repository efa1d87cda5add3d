/**
 Verification of a five-role catalog bundle.  Hashing, key and signature checks and
 the reading of timestamps are given; everything else follows the documents.
 */
module CatalogVerify {
  import opened CanonicalCodec
  import opened CanonicalJson
  import opened Strings
  import opened Wrappers

  datatype Tools = Tools(
    sha: string -> string,
    keyOk: string -> bool,
    signatureOk: (string, string, string) -> bool,
    expiry: string -> Option<int>)

  datatype Bundle = Bundle(root: string, targets: string, snapshot: string, timestamp: string, revocation: string)

  const ROLES := ["root", "targets", "snapshot", "timestamp", "revocation"]

  type Fields = map<string, Json>

  datatype Signature = Signature(keyId: string, value: string)
  datatype Envelope = Envelope(signed: Fields, signatures: seq<Signature>, signedText: string, envelopeText: string)
  datatype Policy = Policy(keyIds: seq<string>, threshold: nat)
  datatype Root = Root(keys: map<string, string>, roles: map<string, Policy>)

  // ---- Texts ----

  predicate Letter(c: char) {
    'a' <= c <= 'z' || 'A' <= c <= 'Z' || IsDigit(c)
  }

  predicate KeyIdText(s: string) {
    1 <= |s| <= 128 && Letter(s[0])
    && forall i :: 0 <= i < |s| ==> Letter(s[i]) || s[i] == '.' || s[i] == '_' || s[i] == ':' || s[i] == '-'
  }

  predicate Base64Text(s: string) {
    s != "" && forall i :: 0 <= i < |s| ==> Letter(s[i]) || s[i] == '_' || s[i] == '-'
  }

  function WithoutPrefix(s: string): string {
    if "sha256:" <= s then s[7..] else s
  }

  predicate DigestText(s: string) {
    LowerHex(WithoutPrefix(s))
  }

  /** `equalDigest` */
  predicate EqualDigest(expected: string, actual: string) {
    var e, a := WithoutPrefix(Lower(expected)), WithoutPrefix(Lower(actual));
    |e| == 64 && |a| == 64 && e == a
  }

  function NumberOf(d: string): nat
    requires AllDigits(d)
  {
    if |d| == 1 then d[0] as int - '0' as int
    else NumberOf(d[..|d| - 1]) * 10 + (d[|d| - 1] as int - '0' as int)
  }

  /** `positiveVersion`: an unsigned 64-bit integer that is not zero. */
  function PositiveVersion(fields: Fields, name: string): Option<nat> {
    if name in fields && fields[name].Num? && AllDigits(fields[name].text)
       && 0 < NumberOf(fields[name].text) < 0x1_0000_0000_0000_0000
    then Some(NumberOf(fields[name].text)) else None
  }

  /** A string member, or nothing when it is missing or no string. */
  function TextOf(fields: Fields, name: string): Option<string> {
    if name in fields && fields[name].Str? then Some(fields[name].s) else None
  }

  function FieldsOf(fields: Fields, name: string): Option<Fields> {
    if name in fields && fields[name].Obj? then Some(fields[name].fields) else None
  }

  // ---- Envelopes ----

  predicate SignatureItem(j: Json) {
    && j.Obj? && |j.fields| == 2
    && TextOf(j.fields, "keyid").Some? && KeyIdText(TextOf(j.fields, "keyid").value)
    && TextOf(j.fields, "sig").Some? && Base64Text(TextOf(j.fields, "sig").value)
  }

  predicate EnvelopeItem(j: Json) {
    && j.Obj? && |j.fields| == 2
    && "signed" in j.fields && j.fields["signed"].Obj?
    && "signatures" in j.fields && j.fields["signatures"].Arr? && j.fields["signatures"].items != []
    && forall i :: 0 <= i < |j.fields["signatures"].items| ==> SignatureItem(j.fields["signatures"].items[i])
  }

  function SignatureOf(j: Json): Signature {
    if SignatureItem(j) then Signature(j.fields["keyid"].s, j.fields["sig"].s) else Signature("", "")
  }

  function SignaturesOf(items: seq<Json>): seq<Signature> {
    seq(|items|, i requires 0 <= i < |items| => SignatureOf(items[i]))
  }

  /** The envelope a document stands for, with the canonical texts its signatures and digests are about. */
  ghost function EnvelopeOf(raw: string): Option<Envelope> {
    match Parse(raw)
    case None => None
    case Some(j) =>
      if EnvelopeItem(j)
      then Some(Envelope(j.fields["signed"].fields, SignaturesOf(j.fields["signatures"].items),
                         Encode(j.fields["signed"]), Encode(j)))
      else None
  }

  method CanonicalText(j: Json) returns (text: string)
    ensures text == Encode(j)
  {
    var b := new Builder();
    EncodeValue(b, j);
    assert "" + Encode(j) == Encode(j);
    text := b.text;
  }

  /** `parseEnvelope` */
  method ParseEnvelope(raw: string) returns (e: Option<Envelope>)
    ensures e == EnvelopeOf(raw)
  {
    var parsed := Parse(raw);
    if parsed.None? || !EnvelopeItem(parsed.value) {
      return None;
    }
    var document := parsed.value.fields;
    var signedText := CanonicalText(document["signed"]);
    var envelopeText := CanonicalText(parsed.value);
    e := Some(Envelope(document["signed"].fields, SignaturesOf(document["signatures"].items), signedText,
                       envelopeText));
  }

  // ---- The root ----

  predicate KeyItem(t: Tools, id: string, j: Json) {
    && KeyIdText(id) && j.Obj?
    && TextOf(j.fields, "keytype") == Some("ed25519") && TextOf(j.fields, "scheme") == Some("ed25519")
    && FieldsOf(j.fields, "keyval").Some?
    && var public := TextOf(FieldsOf(j.fields, "keyval").value, "public");
    public.Some? && Base64Text(public.value) && t.keyOk(public.value)
  }

  predicate RoleItem(keys: Fields, j: Json) {
    && j.Obj? && "keyids" in j.fields && j.fields["keyids"].Arr?
    && var ids := j.fields["keyids"].items;
    && ids != []
    && (forall i :: 0 <= i < |ids| ==> ids[i].Str? && KeyIdText(ids[i].s) && ids[i].s in keys)
    && (forall i, k :: 0 <= i < k < |ids| ==> ids[i] != ids[k])
    && PositiveVersion(j.fields, "threshold").Some? && PositiveVersion(j.fields, "threshold").value <= |ids|
  }

  predicate RootItem(t: Tools, signed: Fields) {
    && FieldsOf(signed, "keys").Some? && FieldsOf(signed, "roles").Some?
    && var keys, roles := FieldsOf(signed, "keys").value, FieldsOf(signed, "roles").value;
    && keys != map[] && (forall id :: id in keys ==> KeyItem(t, id, keys[id]))
    && (forall role :: role in roles ==> RoleItem(keys, roles[role]))
    && forall i :: 0 <= i < |ROLES| ==> ROLES[i] in roles
  }

  /** The key ids a role item lists. */
  function IdsOf(j: Json): (ids: seq<string>)
    requires j.Obj? && "keyids" in j.fields && j.fields["keyids"].Arr?
    requires forall i :: 0 <= i < |j.fields["keyids"].items| ==> j.fields["keyids"].items[i].Str?
    ensures |ids| == |j.fields["keyids"].items|
  {
    var items := j.fields["keyids"].items;
    seq(|items|, i requires 0 <= i < |items| => items[i].s)
  }

  /** `parseRoot` */
  function RootOf(t: Tools, signed: Fields): Option<Root> {
    if !RootItem(t, signed) then None
    else
      var keys, roles := signed["keys"].fields, signed["roles"].fields;
      Some(Root(
             map id | id in keys :: keys[id].fields["keyval"].fields["public"].s,
             map role | role in roles ::
               Policy(IdsOf(roles[role]), PositiveVersion(roles[role].fields, "threshold").value)))
  }

  // ---- Signatures ----

  ghost predicate SignedBy(t: Tools, root: Root, e: Envelope, key: string, upTo: nat)
    requires upTo <= |e.signatures|
  {
    key in root.keys && exists i :: 0 <= i < upTo && e.signatures[i].keyId == key
                                    && t.signatureOk(root.keys[key], e.signedText, e.signatures[i].value)
  }

  /** The distinct keys of the policy that signed the document. */
  ghost function Signers(t: Tools, root: Root, policy: Policy, e: Envelope, upTo: nat): set<string>
    requires upTo <= |e.signatures|
  {
    set key | key in policy.keyIds && SignedBy(t, root, e, key, upTo)
  }

  ghost predicate EnoughSigners(t: Tools, root: Root, role: string, e: Envelope) {
    role in root.roles && 1 <= root.roles[role].threshold <= |Signers(t, root, root.roles[role], e, |e.signatures|)|
  }

  /** `verifyRoleSignatures`: repeated signatures of one key count once. */
  method VerifySignatures(t: Tools, root: Root, role: string, e: Envelope) returns (ok: bool)
    requires role in root.roles ==> forall key :: key in root.roles[role].keyIds ==> key in root.keys
    ensures ok <==> EnoughSigners(t, root, role, e)
  {
    if role !in root.roles || root.roles[role].threshold < 1 {
      return false;
    }
    var policy := root.roles[role];
    var allowed := set key | key in policy.keyIds;
    var valid: set<string> := {};
    for i := 0 to |e.signatures|
      invariant valid == Signers(t, root, policy, e, i)
    {
      var s := e.signatures[i];
      SignersGrow(t, root, policy, e, i);
      if s.keyId in allowed && s.keyId !in valid {
        if t.signatureOk(root.keys[s.keyId], e.signedText, s.value) {
          valid := valid + {s.keyId};
        }
      }
    }
    ok := |valid| >= policy.threshold;
  }

  lemma SignersGrow(t: Tools, root: Root, policy: Policy, e: Envelope, i: nat)
    requires i < |e.signatures|
    ensures var s := e.signatures[i];
            Signers(t, root, policy, e, i + 1) == Signers(t, root, policy, e, i)
            + if s.keyId in policy.keyIds && s.keyId in root.keys
                 && t.signatureOk(root.keys[s.keyId], e.signedText, s.value) then {s.keyId} else {}
  {
    var s := e.signatures[i];
    forall key | key in policy.keyIds
      ensures SignedBy(t, root, e, key, i + 1) <==>
              SignedBy(t, root, e, key, i)
              || (key == s.keyId && key in root.keys && t.signatureOk(root.keys[key], e.signedText, s.value))
    {
      if SignedBy(t, root, e, key, i) {
        var k :| 0 <= k < i && e.signatures[k].keyId == key
                 && t.signatureOk(root.keys[key], e.signedText, e.signatures[k].value);
        assert k < i + 1;
      }
    }
  }

  // ---- Bindings between roles ----

  /** `verifyMetaBinding` */
  ghost predicate Binds(t: Tools, document: Envelope, binding: Envelope, name: string, version: nat) {
    && FieldsOf(binding.signed, "meta").Some?
    && var item := FieldsOf(FieldsOf(binding.signed, "meta").value, name);
    && item.Some? && PositiveVersion(item.value, "version") == Some(version)
    && FieldsOf(item.value, "hashes").Some?
    && var expected := TextOf(FieldsOf(item.value, "hashes").value, "sha256");
    expected.Some? && EqualDigest(expected.value, t.sha(document.envelopeText))
  }

  // ---- Targets and revocations ----

  const REQUIRED := ["product_id", "release_id", "version", "plan_digest", "artifact_digest", "manifest_digest",
                     "release_notes_markdown", "release_notes_digest", "compatibility", "compatibility_digest"]
  const DIGESTS := ["plan_digest", "artifact_digest", "manifest_digest", "release_notes_digest", "compatibility_digest"]

  datatype Target = Target(name: string, releaseId: string, manifestDigest: string, releaseKeyId: string)

  predicate DigestField(custom: Fields, name: string) {
    TextOf(custom, name).Some? && DigestText(TextOf(custom, name).value)
  }

  ghost predicate TargetItem(t: Tools, j: Json) {
    && j.Obj? && FieldsOf(j.fields, "custom").Some?
    && var custom := FieldsOf(j.fields, "custom").value;
    && (forall i :: 0 <= i < |REQUIRED| ==> REQUIRED[i] in custom)
    && (forall i :: 0 <= i < |DIGESTS| ==> DigestField(custom, DIGESTS[i]))
    && TextOf(custom, "release_id").Some? && TextOf(custom, "release_id").value != ""
    && TextOf(custom, "release_notes_markdown").Some?
    && "release_notes_digest" in custom && custom["release_notes_digest"].Str?
    && EqualDigest(custom["release_notes_digest"].s, t.sha(custom["release_notes_markdown"].s))
    && "compatibility_digest" in custom && custom["compatibility_digest"].Str? && "compatibility" in custom
    && EqualDigest(custom["compatibility_digest"].s, t.sha(Encode(custom["compatibility"])))
  }

  function Blankable(fields: Fields, name: string): string {
    if TextOf(fields, name).Some? then TextOf(fields, name).value else ""
  }

  function TargetOf(name: string, j: Json): Target {
    var custom := if j.Obj? && FieldsOf(j.fields, "custom").Some? then FieldsOf(j.fields, "custom").value else map[];
    Target(name, Blankable(custom, "release_id"), Blankable(custom, "manifest_digest"),
           Blankable(custom, "release_key_id"))
  }

  predicate RevocationItem(j: Json) {
    j.Obj? && (Blankable(j.fields, "manifest_digest") != "" ==> DigestText(Blankable(j.fields, "manifest_digest")))
  }

  /** Some revocation names this text in the given member. */
  ghost predicate Names(items: seq<Json>, field: string, value: string, upTo: nat)
    requires upTo <= |items|
  {
    value != "" && exists i :: 0 <= i < upTo && items[i].Obj? && Blankable(items[i].fields, field) == value
  }

  ghost predicate TargetRevoked(items: seq<Json>, target: Target) {
    var n := |items|;
    || Names(items, "release_id", target.name, n) || Names(items, "release_id", target.releaseId, n)
    || Names(items, "manifest_digest", target.manifestDigest, n) || Names(items, "key_id", target.releaseKeyId, n)
  }

  /** No revocation names, in the same spelling, anything the bundle offers or is signed with. */
  ghost predicate NothingRevoked(revocation: Fields, signatures: seq<Signature>, targets: set<Target>) {
    && "revoked" !in revocation && "revocations" in revocation && revocation["revocations"].Arr?
    && var items := revocation["revocations"].items;
    && (forall i :: 0 <= i < |items| ==> RevocationItem(items[i]))
    && (forall i :: 0 <= i < |signatures| ==> !Names(items, "key_id", signatures[i].keyId, |items|))
    && forall target :: target in targets ==> !TargetRevoked(items, target)
  }

  method CollectNames(items: seq<Json>, field: string) returns (names: set<string>)
    requires forall i :: 0 <= i < |items| ==> items[i].Obj?
    ensures forall value :: value in names <==> Names(items, field, value, |items|)
  {
    names := {};
    for i := 0 to |items|
      invariant forall value :: value in names <==> Names(items, field, value, i)
    {
      var value := Blankable(items[i].fields, field);
      if value != "" {
        names := names + {value};
      }
    }
  }

  /** `verifyRevocations` */
  method VerifyRevocations(revocation: Fields, signatures: seq<Signature>, targets: seq<Target>) returns (ok: bool)
    ensures ok <==> NothingRevoked(revocation, signatures, Elements(targets))
  {
    if "revoked" in revocation || "revocations" !in revocation || !revocation["revocations"].Arr? {
      return false;
    }
    var items := revocation["revocations"].items;
    if exists i :: 0 <= i < |items| && !RevocationItem(items[i]) {
      return false;
    }
    var releases := CollectNames(items, "release_id");
    var manifests := CollectNames(items, "manifest_digest");
    var keys := CollectNames(items, "key_id");
    for i := 0 to |signatures|
      invariant forall k :: 0 <= k < i ==> !Names(items, "key_id", signatures[k].keyId, |items|)
    {
      if signatures[i].keyId in keys {
        return false;
      }
    }
    for i := 0 to |targets|
      invariant forall k :: 0 <= k < i ==> !TargetRevoked(items, targets[k])
    {
      var target := targets[i];
      if target.name in releases || target.releaseId in releases || target.manifestDigest in manifests
         || (target.releaseKeyId in keys && target.releaseKeyId != "") {
        assert target in Elements(targets);
        return false;
      }
    }
    ok := true;
  }

  ghost predicate TargetsItem(t: Tools, signed: Fields) {
    && FieldsOf(signed, "targets").Some? && FieldsOf(signed, "targets").value != map[]
    && forall name :: name in FieldsOf(signed, "targets").value ==>
                        TargetItem(t, FieldsOf(signed, "targets").value[name])
  }

  ghost function TargetsOf(items: Fields): set<Target> {
    set name | name in items :: TargetOf(name, items[name])
  }

  method CheckTarget(t: Tools, j: Json) returns (ok: bool)
    ensures ok <==> TargetItem(t, j)
  {
    if !j.Obj? || FieldsOf(j.fields, "custom").None? {
      return false;
    }
    var custom := FieldsOf(j.fields, "custom").value;
    if exists i :: 0 <= i < |REQUIRED| && REQUIRED[i] !in custom {
      return false;
    }
    if exists i :: 0 <= i < |DIGESTS| && !DigestField(custom, DIGESTS[i]) {
      return false;
    }
    if TextOf(custom, "release_id").None? || TextOf(custom, "release_id").value == ""
       || TextOf(custom, "release_notes_markdown").None? {
      return false;
    }
    assert DigestField(custom, DIGESTS[3]) && DigestField(custom, DIGESTS[4]) && REQUIRED[8] in custom;
    if !EqualDigest(custom["release_notes_digest"].s, t.sha(custom["release_notes_markdown"].s)) {
      return false;
    }
    var compatibility := CanonicalText(custom["compatibility"]);
    ok := EqualDigest(custom["compatibility_digest"].s, t.sha(compatibility));
  }

  /** `verifyTargets` */
  method VerifyTargets(t: Tools, signed: Fields) returns (targets: Option<seq<Target>>)
    ensures targets.Some? <==> TargetsItem(t, signed)
    ensures targets.Some? ==> Elements(targets.value) == TargetsOf(FieldsOf(signed, "targets").value)
  {
    if FieldsOf(signed, "targets").None? || FieldsOf(signed, "targets").value == map[] {
      return None;
    }
    var items := FieldsOf(signed, "targets").value;
    var names := KeysInOrder(items);
    var result: seq<Target> := [];
    for i := 0 to |names|
      invariant Elements(names[..i]) <= items.Keys && AllTargets(t, items, names[..i])
      invariant result == ListTargets(items, names[..i])
    {
      NextName(t, items, names, i);
      var ok := CheckTarget(t, items[names[i]]);
      if !ok {
        return None;
      }
      result := result + [TargetOf(names[i], items[names[i]])];
    }
    assert names[..|names|] == names;
    EveryName(t, items, names);
    ListedTargets(items, names);
    targets := Some(result);
  }

  /** Every listed name is that of a valid target. */
  ghost predicate AllTargets(t: Tools, items: Fields, names: seq<string>)
    requires Elements(names) <= items.Keys
  {
    if names == [] then true
    else
      assert names[|names| - 1] in Elements(names) && Elements(names[..|names| - 1]) <= Elements(names);
      AllTargets(t, items, names[..|names| - 1]) && TargetItem(t, items[names[|names| - 1]])
  }

  ghost function ListTargets(items: Fields, names: seq<string>): seq<Target>
    requires Elements(names) <= items.Keys
  {
    if names == [] then []
    else
      assert names[|names| - 1] in Elements(names) && Elements(names[..|names| - 1]) <= Elements(names);
      ListTargets(items, names[..|names| - 1]) + [TargetOf(names[|names| - 1], items[names[|names| - 1]])]
  }

  lemma NextName(t: Tools, items: Fields, names: seq<string>, i: nat)
    requires Elements(names) == items.Keys && i < |names| && Elements(names[..i]) <= items.Keys
    ensures names[i] in items && Elements(names[..i + 1]) <= items.Keys
    ensures AllTargets(t, items, names[..i + 1]) <==> AllTargets(t, items, names[..i]) && TargetItem(t, items[names[i]])
    ensures ListTargets(items, names[..i + 1]) == ListTargets(items, names[..i]) + [TargetOf(names[i], items[names[i]])]
  {
    assert names[i] in Elements(names);
    assert names[..i + 1][..i] == names[..i];
    assert Elements(names[..i + 1]) <= Elements(names);
  }

  lemma {:induction false} TargetAt(t: Tools, items: Fields, names: seq<string>, k: nat)
    requires Elements(names) <= items.Keys && k < |names| && AllTargets(t, items, names)
    ensures names[k] in items && TargetItem(t, items[names[k]])
    decreases |names|
  {
    assert names[k] in Elements(names);
    if k < |names| - 1 {
      assert Elements(names[..|names| - 1]) <= Elements(names);
      TargetAt(t, items, names[..|names| - 1], k);
    }
  }

  lemma EveryName(t: Tools, items: Fields, names: seq<string>)
    requires Elements(names) == items.Keys && AllTargets(t, items, names)
    ensures forall name :: name in items ==> TargetItem(t, items[name])
  {
    forall name | name in items
      ensures TargetItem(t, items[name])
    {
      assert name in Elements(names);
      var k :| 0 <= k < |names| && names[k] == name;
      TargetAt(t, items, names, k);
    }
  }

  ghost function NamedTargets(items: Fields, names: set<string>): set<Target>
    requires names <= items.Keys
  {
    set name | name in names :: TargetOf(name, items[name])
  }

  lemma {:induction false} ListedTargets(items: Fields, names: seq<string>)
    requires Elements(names) <= items.Keys
    ensures Elements(ListTargets(items, names)) == NamedTargets(items, Elements(names))
    decreases |names|
  {
    if names != [] {
      var before, last := names[..|names| - 1], names[|names| - 1];
      assert last in Elements(names) && Elements(before) <= Elements(names);
      ListedTargets(items, before);
      var target := TargetOf(last, items[last]);
      assert Elements(ListTargets(items, before) + [target]) == Elements(ListTargets(items, before)) + {target};
      assert Elements(names) == Elements(before) + {last} by {
        assert names == before + [last];
      }
      assert NamedTargets(items, Elements(before) + {last}) == NamedTargets(items, Elements(before)) + {target};
    }
  }

  // ---- The bundle ----

  ghost predicate RoleOk(t: Tools, root: Root, role: string, e: Envelope, now: int) {
    && TextOf(e.signed, "_type") == Some(role) && PositiveVersion(e.signed, "version").Some?
    && TextOf(e.signed, "expires").Some? && t.expiry(TextOf(e.signed, "expires").value).Some?
    && t.expiry(TextOf(e.signed, "expires").value).value > now
    && EnoughSigners(t, root, role, e)
  }

  /** The five parsed documents and the root's policy. */
  datatype Documents = Documents(root: Envelope, targets: Envelope, snapshot: Envelope, timestamp: Envelope,
                                 revocation: Envelope, policy: Root)

  ghost predicate Reads(t: Tools, b: Bundle, d: Documents) {
    && EnvelopeOf(b.root) == Some(d.root) && EnvelopeOf(b.targets) == Some(d.targets)
    && EnvelopeOf(b.snapshot) == Some(d.snapshot)
    && EnvelopeOf(b.timestamp) == Some(d.timestamp) && EnvelopeOf(b.revocation) == Some(d.revocation)
    && RootOf(t, d.root.signed) == Some(d.policy)
  }

  ghost predicate RolesOk(t: Tools, d: Documents, now: int) {
    && RoleOk(t, d.policy, "root", d.root, now) && RoleOk(t, d.policy, "targets", d.targets, now)
    && RoleOk(t, d.policy, "snapshot", d.snapshot, now) && RoleOk(t, d.policy, "timestamp", d.timestamp, now)
    && RoleOk(t, d.policy, "revocation", d.revocation, now)
  }

  ghost predicate Linked(t: Tools, d: Documents)
    requires PositiveVersion(d.targets.signed, "version").Some? && PositiveVersion(d.snapshot.signed, "version").Some?
  {
    && Binds(t, d.targets, d.snapshot, "targets.json", PositiveVersion(d.targets.signed, "version").value)
    && Binds(t, d.snapshot, d.timestamp, "snapshot.json", PositiveVersion(d.snapshot.signed, "version").value)
  }

  ghost predicate Offered(t: Tools, d: Documents) {
    TargetsItem(t, d.targets.signed)
    && NothingRevoked(d.revocation.signed, d.targets.signatures, TargetsOf(FieldsOf(d.targets.signed, "targets").value))
  }

  ghost predicate Acceptable(t: Tools, b: Bundle, d: Documents, now: int) {
    Reads(t, b, d) && RolesOk(t, d, now) && Linked(t, d) && Offered(t, d)
  }

  ghost predicate Accepted(t: Tools, b: Bundle, now: int) {
    exists d :: Acceptable(t, b, d, now)
  }

  method ReadDocuments(t: Tools, b: Bundle) returns (d: Option<Documents>)
    ensures d.Some? ==> Reads(t, b, d.value)
    ensures d.None? ==> forall any :: !Reads(t, b, any)
  {
    var root := ParseEnvelope(b.root);
    if root.None? {
      return None;
    }
    var policy := RootOf(t, root.value.signed);
    var targets := ParseEnvelope(b.targets);
    var snapshot := ParseEnvelope(b.snapshot);
    var timestamp := ParseEnvelope(b.timestamp);
    var revocation := ParseEnvelope(b.revocation);
    if policy.None? || targets.None? || snapshot.None? || timestamp.None? || revocation.None? {
      return None;
    }
    d := Some(Documents(root.value, targets.value, snapshot.value, timestamp.value, revocation.value, policy.value));
  }

  lemma PolicyKeysExist(t: Tools, signed: Fields)
    requires RootOf(t, signed).Some?
    ensures var root := RootOf(t, signed).value;
            forall role, key :: role in root.roles && key in root.roles[role].keyIds ==> key in root.keys
  {
  }

  method CheckRole(t: Tools, root: Root, role: string, e: Envelope, now: int) returns (ok: bool)
    requires role in root.roles ==> forall key :: key in root.roles[role].keyIds ==> key in root.keys
    ensures ok <==> RoleOk(t, root, role, e, now)
  {
    if TextOf(e.signed, "_type") != Some(role) || PositiveVersion(e.signed, "version").None?
       || TextOf(e.signed, "expires").None? {
      return false;
    }
    var expires := t.expiry(TextOf(e.signed, "expires").value);
    if expires.None? || expires.value <= now {
      return false;
    }
    ok := VerifySignatures(t, root, role, e);
  }

  method CheckRoles(t: Tools, d: Documents, now: int) returns (ok: bool)
    requires RootOf(t, d.root.signed) == Some(d.policy)
    ensures ok <==> RolesOk(t, d, now)
  {
    PolicyKeysExist(t, d.root.signed);
    ok := CheckRole(t, d.policy, "root", d.root, now);
    if ok {
      ok := CheckRole(t, d.policy, "targets", d.targets, now);
    }
    if ok {
      ok := CheckRole(t, d.policy, "snapshot", d.snapshot, now);
    }
    if ok {
      ok := CheckRole(t, d.policy, "timestamp", d.timestamp, now);
    }
    if ok {
      ok := CheckRole(t, d.policy, "revocation", d.revocation, now);
    }
  }

  method CheckBinding(t: Tools, document: Envelope, binding: Envelope, name: string, version: nat) returns (ok: bool)
    ensures ok <==> Binds(t, document, binding, name, version)
  {
    if FieldsOf(binding.signed, "meta").None? {
      return false;
    }
    var item := FieldsOf(FieldsOf(binding.signed, "meta").value, name);
    if item.None? || PositiveVersion(item.value, "version") != Some(version) || FieldsOf(item.value, "hashes").None? {
      return false;
    }
    var expected := TextOf(FieldsOf(item.value, "hashes").value, "sha256");
    ok := expected.Some? && EqualDigest(expected.value, t.sha(document.envelopeText));
  }

  /** `Verify` accepts exactly the acceptable bundles. */
  method Verify(t: Tools, b: Bundle, now: int) returns (ok: bool)
    ensures ok <==> Accepted(t, b, now)
  {
    var read := ReadDocuments(t, b);
    if read.None? {
      return false;
    }
    var d := read.value;
    assert forall any :: Reads(t, b, any) ==> any == d;
    ok := CheckDocuments(t, d, now);
    if ok {
      assert Acceptable(t, b, d, now);
    }
  }

  method CheckDocuments(t: Tools, d: Documents, now: int) returns (ok: bool)
    requires RootOf(t, d.root.signed) == Some(d.policy)
    ensures ok <==> RolesOk(t, d, now) && Linked(t, d) && Offered(t, d)
  {
    ok := CheckRoles(t, d, now);
    if !ok {
      return;
    }
    ok := CheckBinding(t, d.targets, d.snapshot, "targets.json", PositiveVersion(d.targets.signed, "version").value);
    if !ok {
      return;
    }
    ok := CheckBinding(t, d.snapshot, d.timestamp, "snapshot.json",
                       PositiveVersion(d.snapshot.signed, "version").value);
    if !ok {
      return;
    }
    var targets := VerifyTargets(t, d.targets.signed);
    if targets.None? {
      return false;
    }
    ok := VerifyRevocations(d.revocation.signed, d.targets.signatures, targets.value);
  }

  // ---- What acceptance means ----

  lemma LowerHexStays(s: string)
    requires LowerHex(s)
    ensures WithoutPrefix(Lower(s)) == s
  {
    assert Lower(s) == s;
    assert s[0] != 's';
  }

  /** The digest of a document is well formed and does not collide with that of another. */
  ghost predicate Sound(t: Tools, d1: Envelope, d2: Envelope) {
    && LowerHex(t.sha(d1.envelopeText)) && LowerHex(t.sha(d2.envelopeText))
    && (t.sha(d1.envelopeText) == t.sha(d2.envelopeText) ==> d1.envelopeText == d2.envelopeText)
  }

  /** Two documents bound by the same entry are the same document. */
  lemma BoundDocumentsAgree(
    t: Tools, raw1: string, raw2: string, d1: Envelope, d2: Envelope, binding: Envelope, name: string, v1: nat, v2: nat)
    requires EnvelopeOf(raw1) == Some(d1) && EnvelopeOf(raw2) == Some(d2) && Sound(t, d1, d2)
    requires Binds(t, d1, binding, name, v1) && Binds(t, d2, binding, name, v2)
    ensures d1 == d2 && Canonical(raw1) == Canonical(raw2)
  {
    LowerHexStays(t.sha(d1.envelopeText));
    LowerHexStays(t.sha(d2.envelopeText));
    CanonicalIsInjective(raw1, raw2);
  }

  /**
   Two accepted bundles with the same timestamp document have the same snapshot and
   the same targets, provided the digest does not collide on their documents.
   */
  lemma TimestampDeterminesBundle(t: Tools, b1: Bundle, b2: Bundle, d1: Documents, d2: Documents, now1: int, now2: int)
    requires Acceptable(t, b1, d1, now1) && Acceptable(t, b2, d2, now2)
    requires Canonical(b1.timestamp) == Canonical(b2.timestamp)
    requires Sound(t, d1.snapshot, d2.snapshot) && Sound(t, d1.targets, d2.targets)
    ensures Canonical(b1.snapshot) == Canonical(b2.snapshot) && Canonical(b1.targets) == Canonical(b2.targets)
    ensures d1.snapshot == d2.snapshot && d1.targets == d2.targets
  {
    CanonicalIsInjective(b1.timestamp, b2.timestamp);
    assert d1.timestamp == d2.timestamp;
    BoundDocumentsAgree(t, b1.snapshot, b2.snapshot, d1.snapshot, d2.snapshot, d1.timestamp, "snapshot.json",
                        PositiveVersion(d1.snapshot.signed, "version").value,
                        PositiveVersion(d2.snapshot.signed, "version").value);
    BoundDocumentsAgree(t, b1.targets, b2.targets, d1.targets, d2.targets, d1.snapshot, "targets.json",
                        PositiveVersion(d1.targets.signed, "version").value,
                        PositiveVersion(d2.targets.signed, "version").value);
  }

  /** Signing again with a key that already signed adds no signer. */
  lemma RepeatedSignatureCountsOnce(t: Tools, root: Root, policy: Policy, e: Envelope, i: nat, value: string)
    requires i < |e.signatures|
    requires e.signatures[i].keyId in root.keys
    requires t.signatureOk(root.keys[e.signatures[i].keyId], e.signedText, e.signatures[i].value)
    ensures var again := e.(signatures := e.signatures + [Signature(e.signatures[i].keyId, value)]);
            Signers(t, root, policy, again, |again.signatures|) == Signers(t, root, policy, e, |e.signatures|)
  {
    var n := |e.signatures|;
    var again := e.(signatures := e.signatures + [Signature(e.signatures[i].keyId, value)]);
    SignersGrow(t, root, policy, again, n);
    forall key | key in policy.keyIds
      ensures SignedBy(t, root, again, key, n) <==> SignedBy(t, root, e, key, n)
    {
      if SignedBy(t, root, e, key, n) {
        var k :| 0 <= k < n && e.signatures[k].keyId == key
                 && t.signatureOk(root.keys[key], e.signedText, e.signatures[k].value);
        assert again.signatures[k] == e.signatures[k];
      }
      if SignedBy(t, root, again, key, n) {
        var k :| 0 <= k < n && again.signatures[k].keyId == key
                 && t.signatureOk(root.keys[key], again.signedText, again.signatures[k].value);
        assert again.signatures[k] == e.signatures[k];
      }
    }
    assert SignedBy(t, root, e, e.signatures[i].keyId, n);
  }
}
