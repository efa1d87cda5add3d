/**
 What revocation does not reach: a manifest digest is compared as it is spelled, and no
 other document of a bundle binds the list of revocations.
 */
module CatalogRevocations {
  import opened CanonicalJson
  import opened CatalogVerify
  import opened Strings

  // ---- What a revocation reaches, member by member ----

  /** The object has this text as that member. */
  predicate Says(j: Json, member: string, text: string) {
    j.Obj? && member in j.fields && j.fields[member] == Str(text)
  }

  /** Some item of the list of revocations has this text as that member. */
  ghost predicate Revokes(items: seq<Json>, member: string, text: string) {
    text != "" && exists i :: 0 <= i < |items| && Says(items[i], member, text)
  }

  /** The custom part of a target has this text as that member. */
  predicate Offers(target: Json, member: string, text: string) {
    target.Obj? && "custom" in target.fields && Says(target.fields["custom"], member, text)
  }

  predicate IsHexDigest(d: string) {
    |d| == 64 && forall i :: 0 <= i < |d| ==> d[i] in "0123456789abcdef"
  }

  /** Sixty-four lower-case hexadecimal digits, with or without the name of the hash before them. */
  predicate IsManifestDigest(m: string) {
    IsHexDigest(m) || (|m| == 71 && m[..7] == "sha256:" && IsHexDigest(m[7..]))
  }

  /** The list names no key, release or manifest of this target. */
  ghost predicate Unrevoked(items: seq<Json>, name: string, target: Json) {
    && !Revokes(items, "release_id", name)
    && (forall text :: Offers(target, "release_id", text) ==> !Revokes(items, "release_id", text))
    && (forall text :: Offers(target, "manifest_digest", text) ==> !Revokes(items, "manifest_digest", text))
    && (forall text :: Offers(target, "release_key_id", text) ==> !Revokes(items, "key_id", text))
  }

  lemma NamesMeansRevokes(items: seq<Json>, member: string, text: string)
    ensures Names(items, member, text, |items|) <==> Revokes(items, member, text)
  {
    forall i | 0 <= i < |items| && text != ""
      ensures items[i].Obj? && Blankable(items[i].fields, member) == text <==> Says(items[i], member, text)
    {
    }
  }

  /** A member of the target that the list revokes is one that the target offers. */
  lemma NamesOffered(items: seq<Json>, target: Json, member: string, text: string, revoked: string)
    requires text == "" || Offers(target, member, text)
    requires forall other :: Offers(target, member, other) ==> other == text || other == ""
    ensures Names(items, revoked, text, |items|) <==>
            exists any :: Offers(target, member, any) && Revokes(items, revoked, any)
  {
    NamesMeansRevokes(items, revoked, text);
  }

  lemma TargetRevokedMeans(items: seq<Json>, name: string, target: Json)
    ensures TargetRevoked(items, TargetOf(name, target)) <==> !Unrevoked(items, name, target)
  {
    var o := TargetOf(name, target);
    NamesMeansRevokes(items, "release_id", name);
    NamesOffered(items, target, "release_id", o.releaseId, "release_id");
    NamesOffered(items, target, "manifest_digest", o.manifestDigest, "manifest_digest");
    NamesOffered(items, target, "release_key_id", o.releaseKeyId, "key_id");
  }

  lemma HexLetters(d: string)
    ensures LowerHex(d) <==> IsHexDigest(d)
  {
    var hex := "0123456789abcdef";
    forall i | 0 <= i < |d|
      ensures d[i] in hex <==> '0' <= d[i] <= '9' || 'a' <= d[i] <= 'f'
    {
      if '0' <= d[i] <= '9' {
        assert hex[d[i] as int - '0' as int] == d[i];
      } else if 'a' <= d[i] <= 'f' {
        assert hex[d[i] as int - 'a' as int + 10] == d[i];
      }
    }
  }

  lemma DigestTextMeans(m: string)
    ensures DigestText(m) <==> IsManifestDigest(m)
  {
    HexLetters(m);
    HexLetters(WithoutPrefix(m));
    if LowerHex(m) {
      assert m[0] != 's';
    }
  }

  /** The revocation document holds a list of objects whose manifest digests are digests. */
  ghost predicate ListsRevocations(revocation: Fields, items: seq<Json>) {
    && "revoked" !in revocation && "revocations" in revocation && revocation["revocations"] == Arr(items)
    && forall i :: 0 <= i < |items| ==>
                     && items[i].Obj?
                     && forall m :: Says(items[i], "manifest_digest", m) && m != "" ==> IsManifestDigest(m)
  }

  lemma RevocationItemMeans(j: Json)
    ensures RevocationItem(j) <==>
            j.Obj? && forall m :: Says(j, "manifest_digest", m) && m != "" ==> IsManifestDigest(m)
  {
    if j.Obj? {
      DigestTextMeans(Blankable(j.fields, "manifest_digest"));
    }
  }

  lemma ListsRevocationsMeans(revocation: Fields, items: seq<Json>)
    ensures ListsRevocations(revocation, items) <==>
            && "revoked" !in revocation && "revocations" in revocation && revocation["revocations"] == Arr(items)
            && forall i :: 0 <= i < |items| ==> RevocationItem(items[i])
  {
    forall i | 0 <= i < |items|
      ensures RevocationItem(items[i]) <==>
              && items[i].Obj?
              && forall m :: Says(items[i], "manifest_digest", m) && m != "" ==> IsManifestDigest(m)
    {
      RevocationItemMeans(items[i]);
    }
  }

  /** The list names no key that signed and nothing of any target. */
  ghost predicate NamesNothing(items: seq<Json>, signatures: seq<Signature>, targets: Fields) {
    && (forall i :: 0 <= i < |signatures| ==> !Revokes(items, "key_id", signatures[i].keyId))
    && forall name :: name in targets ==> Unrevoked(items, name, targets[name])
  }

  /** The check of the revocations, over the members of the documents: it passes exactly if nothing is named. */
  lemma RevocationsMean(revocation: Fields, signatures: seq<Signature>, targets: Fields)
    ensures NothingRevoked(revocation, signatures, TargetsOf(targets)) <==>
            exists items :: ListsRevocations(revocation, items) && NamesNothing(items, signatures, targets)
  {
    if "revocations" in revocation && revocation["revocations"].Arr? {
      var items := revocation["revocations"].items;
      ListsRevocationsMeans(revocation, items);
      assert forall other :: ListsRevocations(revocation, other) ==> other == items;
      NamesNothingMeans(items, signatures, targets);
    }
  }

  lemma NamesNothingMeans(items: seq<Json>, signatures: seq<Signature>, targets: Fields)
    ensures NamesNothing(items, signatures, targets) <==>
            && (forall i :: 0 <= i < |signatures| ==> !Names(items, "key_id", signatures[i].keyId, |items|))
            && forall target :: target in TargetsOf(targets) ==> !TargetRevoked(items, target)
  {
    forall i | 0 <= i < |signatures|
      ensures Names(items, "key_id", signatures[i].keyId, |items|)
         <==> Revokes(items, "key_id", signatures[i].keyId)
    {
      NamesMeansRevokes(items, "key_id", signatures[i].keyId);
    }
    forall name | name in targets
      ensures TargetOf(name, targets[name]) in TargetsOf(targets)
      ensures TargetRevoked(items, TargetOf(name, targets[name])) <==> !Unrevoked(items, name, targets[name])
    {
      TargetRevokedMeans(items, name, targets[name]);
    }
  }

  /**
   Nothing that an accepted bundle offers or is signed with is revoked: not a signing key,
   not a release by its name or id, not a manifest, not a release key.
   */
  lemma AcceptedIsUnrevoked(t: Tools, b: Bundle, d: Documents, now: int)
    requires Acceptable(t, b, d, now)
    ensures exists items, targets :: ListsRevocations(d.revocation.signed, items)
                                     && "targets" in d.targets.signed && d.targets.signed["targets"] == Obj(targets)
                                     && NamesNothing(items, d.targets.signatures, targets)
  {
    var targets := d.targets.signed["targets"].fields;
    RevocationsMean(d.revocation.signed, d.targets.signatures, targets);
    var items :| ListsRevocations(d.revocation.signed, items) && NamesNothing(items, d.targets.signatures, targets);
  }

  // ---- Spellings of a digest ----

  datatype Spelling = Bare | Prefixed

  function Spelled(s: Spelling, d: string): string {
    if s == Bare then d else "sha256:" + d
  }

  function SpellingOf(m: string): Spelling {
    if "sha256:" <= m then Prefixed else Bare
  }

  lemma SpellingsOfDigest(s: Spelling, d: string)
    requires LowerHex(d)
    ensures SpellingOf(Spelled(s, d)) == s && WithoutPrefix(Spelled(s, d)) == d && DigestText(Spelled(s, d))
  {
    assert d[0] != 's';
    assert ("sha256:" + d)[..7] == "sha256:" && ("sha256:" + d)[7..] == d;
  }

  /** Some revocation names this manifest, in one spelling or the other. */
  ghost predicate ManifestRevoked(items: seq<Json>, m: string) {
    exists i :: 0 <= i < |items| && items[i].Obj? && Blankable(items[i].fields, "manifest_digest") != ""
                && WithoutPrefix(Blankable(items[i].fields, "manifest_digest")) == WithoutPrefix(m)
  }

  /** A list of revocations whose manifest digests are spelled in these ways only. */
  ghost predicate ListSpelled(items: seq<Json>, spellings: set<Spelling>) {
    forall i :: 0 <= i < |items| ==>
                  RevocationItem(items[i])
                  && (Blankable(items[i].fields, "manifest_digest") != "" ==>
                        SpellingOf(Blankable(items[i].fields, "manifest_digest")) in spellings)
  }

  /** A revoked manifest, in lists that are spelled in these ways. */
  ghost predicate RevokedIn(items: seq<Json>, target: Target, revocations: set<Spelling>, targets: set<Spelling>) {
    && ListSpelled(items, revocations) && DigestText(target.manifestDigest)
    && SpellingOf(target.manifestDigest) in targets
    && ManifestRevoked(items, target.manifestDigest)
  }

  ghost predicate RefusesRevoked(revocations: set<Spelling>, targets: set<Spelling>) {
    forall items, target :: RevokedIn(items, target, revocations, targets) ==> TargetRevoked(items, target)
  }

  function Revoking(m: string): seq<Json> {
    [Obj(map["manifest_digest" := Str(m)])]
  }

  /** One spelling revoked and the other offered: the manifest is revoked, and the target passes. */
  lemma OtherSpellingPasses(d: string, revoked: Spelling, offered: Spelling)
    requires LowerHex(d) && revoked != offered
    ensures var items, target := Revoking(Spelled(revoked, d)), Target("t", "r", Spelled(offered, d), "");
            && ListSpelled(items, {revoked}) && ManifestRevoked(items, target.manifestDigest)
            && !TargetRevoked(items, target)
            && NothingRevoked(map["revocations" := Arr(items)], [], {target})
  {
    SpellingsOfDigest(revoked, d);
    SpellingsOfDigest(offered, d);
    var items, target := Revoking(Spelled(revoked, d)), Target("t", "r", Spelled(offered, d), "");
    assert Blankable(items[0].fields, "manifest_digest") == Spelled(revoked, d);
    assert Blankable(items[0].fields, "release_id") == "" && Blankable(items[0].fields, "key_id") == "";
    assert Spelled(revoked, d) != Spelled(offered, d);
  }

  lemma SameSpellingSameText(a: string, b: string)
    requires SpellingOf(a) == SpellingOf(b) && WithoutPrefix(a) == WithoutPrefix(b)
    ensures a == b
  {
    if "sha256:" <= a {
      assert a == "sha256:" + a[7..] && b == "sha256:" + b[7..];
    }
  }

  function Zeros(): (d: string)
    ensures LowerHex(d)
  {
    seq(64, i => '0')
  }

  /** Every revoked manifest is refused if and only if revocations and targets all spell digests in one way. */
  lemma RevokedManifestsRefusedIff(revocations: set<Spelling>, targets: set<Spelling>)
    ensures RefusesRevoked(revocations, targets) <==> forall r, t :: r in revocations && t in targets ==> r == t
  {
    if r, t :| r in revocations && t in targets && r != t {
      OtherSpellingPasses(Zeros(), r, t);
      SpellingsOfDigest(t, Zeros());
      var items, target := Revoking(Spelled(r, Zeros())), Target("t", "r", Spelled(t, Zeros()), "");
      assert RevokedIn(items, target, revocations, targets) && !TargetRevoked(items, target);
    } else {
      forall items, target | RevokedIn(items, target, revocations, targets)
        ensures TargetRevoked(items, target)
      {
        OneSpellingIsRefused(items, target, revocations, targets);
      }
    }
  }

  lemma OneSpellingIsRefused(items: seq<Json>, target: Target, revocations: set<Spelling>, targets: set<Spelling>)
    requires RevokedIn(items, target, revocations, targets)
    requires forall r, t :: r in revocations && t in targets ==> r == t
    ensures TargetRevoked(items, target)
  {
    var m := target.manifestDigest;
    var i :| 0 <= i < |items| && items[i].Obj? && Blankable(items[i].fields, "manifest_digest") != ""
             && WithoutPrefix(Blankable(items[i].fields, "manifest_digest")) == WithoutPrefix(m);
    SameSpellingSameText(Blankable(items[i].fields, "manifest_digest"), m);
    assert Names(items, "manifest_digest", m, |items|);
  }

  // ---- Nothing binds the revocation document ----

  /** What a document must satisfy to serve as the revocation document of a bundle. */
  ghost predicate Serves(t: Tools, d: Documents, e: Envelope, now: int)
    requires TargetsItem(t, d.targets.signed)
  {
    && RoleOk(t, d.policy, "revocation", e, now)
    && NothingRevoked(e.signed, d.targets.signatures, TargetsOf(FieldsOf(d.targets.signed, "targets").value))
  }

  /** In an accepted bundle the revocation document can be replaced by any other that serves, and by no other. */
  lemma RevocationIsUnbound(t: Tools, b: Bundle, d: Documents, now: int, raw: string)
    requires Acceptable(t, b, d, now)
    ensures Accepted(t, b.(revocation := raw), now) <==>
            EnvelopeOf(raw).Some? && Serves(t, d, EnvelopeOf(raw).value, now)
  {
    var other := b.(revocation := raw);
    if EnvelopeOf(raw).Some? && Serves(t, d, EnvelopeOf(raw).value, now) {
      assert Acceptable(t, other, d.(revocation := EnvelopeOf(raw).value), now);
    }
    if z :| Acceptable(t, other, z, now) {
      assert z == d.(revocation := z.revocation);
    }
  }
}
