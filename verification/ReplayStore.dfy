/**
 The in-memory replay store forgets expired contexts.  Claims read their clock before
 they take the store's lock, so the readings arrive in any order; it is proved for every
 sequence of claims exactly when forgetting lets a context in twice.
 */
module ReplayStore {

  /** One call of `Claim` for the joined issuer and context id, with the clock value its caller read before. */
  datatype Claim = Claim(key: string, expires: int, now: int)

  /** `canonicalReplayIdentity` has trimmed both and refused blanks. */
  function JoinedKey(issuer: string, context: string): string {
    issuer + "\0" + context
  }

  predicate Alive(c: Claim) {
    c.expires > c.now
  }

  class MemoryReplayStore {
    var entries: map<string, int>

    constructor ()
      ensures entries == map[]
    {
      entries := map[];
    }

    /** `Claim`: prune, refuse what is still known, remember the rest. */
    method Admit(c: Claim) returns (claimed: bool)
      modifies this
      ensures claimed <==> Admits(old(entries), c)
      ensures entries == After(old(entries), c)
    {
      if !Alive(c) {
        return false;
      }
      var known := entries;
      var rest := known.Keys;
      while rest != {}
        invariant rest <= known.Keys && entries.Keys <= known.Keys
        invariant forall k :: k in entries ==> entries[k] == known[k]
        invariant forall k :: k in known && k !in entries ==> known[k] <= c.now
        invariant forall k :: k in entries && k !in rest ==> known[k] > c.now
        invariant rest <= entries.Keys
        decreases rest
      {
        var k :| k in rest;
        if entries[k] <= c.now {
          entries := entries - {k};
        }
        rest := rest - {k};
      }
      assert entries == Pruned(known, c.now);
      if c.key in entries {
        return false;
      }
      entries := entries[c.key := c.expires];
      claimed := true;
    }
  }

  function Pruned(entries: map<string, int>, now: int): map<string, int> {
    map k | k in entries && entries[k] > now :: entries[k]
  }

  predicate Admits(entries: map<string, int>, c: Claim) {
    Alive(c) && c.key !in Pruned(entries, c.now)
  }

  function After(entries: map<string, int>, c: Claim): map<string, int> {
    if !Alive(c) then entries
    else if Admits(entries, c) then Pruned(entries, c.now)[c.key := c.expires]
    else Pruned(entries, c.now)
  }

  /** The entries after the first `n` claims. */
  function EntriesAfter(claims: seq<Claim>, n: nat): map<string, int>
    requires n <= |claims|
  {
    if n == 0 then map[] else After(EntriesAfter(claims, n - 1), claims[n - 1])
  }

  predicate AdmittedAt(claims: seq<Claim>, n: nat)
    requires n < |claims|
  {
    Admits(EntriesAfter(claims, n), claims[n])
  }

  /** A store that never forgets admits a live claim exactly when its key was never admitted before. */
  ghost predicate NeverForgets(claims: seq<Claim>, n: nat)
    requires n < |claims|
    decreases n
  {
    Alive(claims[n]) && forall i :: 0 <= i < n && claims[i].key == claims[n].key ==> !NeverForgets(claims, i)
  }

  // ---- When a context is let in twice ----

  ghost predicate AdmittedTwice(claims: seq<Claim>, key: string) {
    exists i, j :: 0 <= i < j < |claims| && claims[i].key == claims[j].key == key && AdmittedAt(claims, i)
                   && AdmittedAt(claims, j)
  }

  ghost predicate FirstAlive(claims: seq<Claim>, i: int, key: string) {
    && 0 <= i < |claims| && claims[i].key == key && Alive(claims[i])
    && forall k :: 0 <= k < i && claims[k].key == key ==> !Alive(claims[k])
  }

  /**
   Some live claim at `m` reads a time at which the context's first live claim has expired,
   and yet a claim of that context that counts itself live takes the lock no earlier.
   */
  ghost predicate Lapses(claims: seq<Claim>, key: string) {
    exists i, m, j :: FirstAlive(claims, i, key) && LapsesAt(claims, i, m, j)
  }

  ghost predicate LapsesAt(claims: seq<Claim>, i: int, m: int, j: int) {
    && 0 <= i < m <= j < |claims| && Alive(claims[m]) && claims[m].now >= claims[i].expires
    && claims[j].key == claims[i].key && Alive(claims[j])
  }

  /** Whatever was admitted is remembered until a live claim reads a time at which it has expired. */
  lemma {:induction false} AdmittedIsKept(claims: seq<Claim>, i: nat, n: nat)
    requires i < n <= |claims| && AdmittedAt(claims, i)
    requires forall m :: i < m < n && Alive(claims[m]) ==> claims[m].now < claims[i].expires
    ensures claims[i].key in EntriesAfter(claims, n) && EntriesAfter(claims, n)[claims[i].key] == claims[i].expires
    decreases n
  {
    if i < n - 1 {
      AdmittedIsKept(claims, i, n - 1);
      assert Alive(claims[n - 1]) ==> claims[n - 1].now < claims[i].expires;
    }
  }

  /** A context the store does not remember is admitted by its next live claim. */
  lemma {:induction false} NextAliveIsAdmitted(claims: seq<Claim>, n: nat, j: nat, key: string) returns (k: nat)
    requires n <= j < |claims| && key !in EntriesAfter(claims, n) && claims[j].key == key && Alive(claims[j])
    ensures n <= k <= j && claims[k].key == key && AdmittedAt(claims, k)
    decreases j - n
  {
    k := n;
    if claims[n].key != key || !Alive(claims[n]) {
      k := NextAliveIsAdmitted(claims, n + 1, j, key);
    }
  }

  lemma {:induction false} UnseenIsUnknown(claims: seq<Claim>, n: nat, key: string)
    requires n <= |claims| && forall k :: 0 <= k < n && claims[k].key == key ==> !Alive(claims[k])
    ensures key !in EntriesAfter(claims, n)
    decreases n
  {
    if n > 0 {
      UnseenIsUnknown(claims, n - 1, key);
    }
  }

  /** The first live claim of a context is admitted, and nothing of the context before it. */
  lemma FirstAliveIsAdmitted(claims: seq<Claim>, i: nat, key: string)
    requires FirstAlive(claims, i, key)
    ensures AdmittedAt(claims, i)
  {
    UnseenIsUnknown(claims, i, key);
  }

  lemma {:induction false} SomeFirstAlive(claims: seq<Claim>, n: nat, key: string) returns (i: nat)
    requires n < |claims| && claims[n].key == key && Alive(claims[n])
    ensures i <= n && FirstAlive(claims, i, key)
    decreases n
  {
    i := n;
    if k :| 0 <= k < n && claims[k].key == key && Alive(claims[k]) {
      i := SomeFirstAlive(claims, k, key);
    }
  }

  /** After a lapse the context is unknown again, so one of its later live claims is admitted a second time. */
  lemma LapseReadmits(claims: seq<Claim>, i: nat, m: nat, j: nat, key: string)
    requires FirstAlive(claims, i, key) && LapsesAt(claims, i, m, j)
    ensures AdmittedTwice(claims, key)
  {
    FirstAliveIsAdmitted(claims, i, key);
    if key in EntriesAfter(claims, m) && EntriesAfter(claims, m)[key] > claims[m].now {
      RenewedEntry(claims, i, m, key);
    } else {
      var k := NextAfterPrune(claims, m, j, key);
      assert claims[i].key == claims[k].key == key && AdmittedAt(claims, k);
    }
  }

  /** An entry that outlives the first one was admitted after it. */
  lemma RenewedEntry(claims: seq<Claim>, i: nat, m: nat, key: string)
    requires FirstAlive(claims, i, key) && AdmittedAt(claims, i) && i < m <= |claims|
    requires key in EntriesAfter(claims, m) && EntriesAfter(claims, m)[key] != claims[i].expires
    ensures AdmittedTwice(claims, key)
  {
    var k := EntryWasAdmitted(claims, m, key);
    assert k >= i;
    assert claims[i].key == claims[k].key == key && AdmittedAt(claims, k);
  }

  lemma NextAfterPrune(claims: seq<Claim>, m: nat, j: nat, key: string) returns (k: nat)
    requires m <= j < |claims| && Alive(claims[m]) && claims[j].key == key && Alive(claims[j])
    requires key !in Pruned(EntriesAfter(claims, m), claims[m].now)
    ensures m <= k <= j && claims[k].key == key && AdmittedAt(claims, k)
  {
    k := m;
    if claims[m].key != key {
      k := NextAliveIsAdmitted(claims, m + 1, j, key);
    }
  }

  /** Whatever the store remembers was admitted, with that expiry. */
  lemma {:induction false} EntryWasAdmitted(claims: seq<Claim>, n: nat, key: string) returns (i: nat)
    requires n <= |claims| && key in EntriesAfter(claims, n)
    ensures i < n && claims[i].key == key && AdmittedAt(claims, i) && EntriesAfter(claims, n)[key] == claims[i].expires
    decreases n
  {
    i := n - 1;
    if claims[i].key != key || !AdmittedAt(claims, i) {
      i := EntryWasAdmitted(claims, n - 1, key);
    }
  }

  /** A second admission needs a lapse. */
  lemma ReadmissionLapses(claims: seq<Claim>, i: nat, j: nat, key: string)
    requires i < j < |claims| && claims[i].key == claims[j].key == key && AdmittedAt(claims, i) && AdmittedAt(claims, j)
    ensures Lapses(claims, key)
  {
    var f := SomeFirstAlive(claims, i, key);
    FirstAliveIsAdmitted(claims, f, key);
    if forall m :: f < m <= j && Alive(claims[m]) ==> claims[m].now < claims[f].expires {
      AdmittedIsKept(claims, f, j);
    } else {
      var m :| f < m <= j && Alive(claims[m]) && claims[m].now >= claims[f].expires;
      assert LapsesAt(claims, f, m, j);
    }
  }

  /** For every sequence of claims, a context is admitted twice if and only if it lapses. */
  lemma AdmittedTwiceIff(claims: seq<Claim>, key: string)
    ensures AdmittedTwice(claims, key) <==> Lapses(claims, key)
  {
    if AdmittedTwice(claims, key) {
      var i, j :| 0 <= i < j < |claims| && claims[i].key == claims[j].key == key && AdmittedAt(claims, i)
                  && AdmittedAt(claims, j);
      ReadmissionLapses(claims, i, j, key);
    }
    if Lapses(claims, key) {
      var i, m, j :| FirstAlive(claims, i, key) && LapsesAt(claims, i, m, j);
      LapseReadmits(claims, i, m, j, key);
    }
  }

  // ---- Against a store that never forgets ----

  /** A store that never forgets admits exactly the first live claim of each context. */
  lemma {:induction false} NeverForgetsIsFirst(claims: seq<Claim>, n: nat)
    requires n < |claims|
    ensures NeverForgets(claims, n) <==> FirstAlive(claims, n, claims[n].key)
    decreases n
  {
    forall i | 0 <= i < n && claims[i].key == claims[n].key
      ensures NeverForgets(claims, i) <==> FirstAlive(claims, i, claims[n].key)
    {
      NeverForgetsIsFirst(claims, i);
    }
    if k :| 0 <= k < n && claims[k].key == claims[n].key && Alive(claims[k]) {
      var i := SomeFirstAlive(claims, k, claims[n].key);
      assert NeverForgets(claims, i);
    }
  }

  ghost predicate AnswersAlike(claims: seq<Claim>) {
    forall n {:trigger AdmittedAt(claims, n)} :: 0 <= n < |claims| ==>
                                                   (AdmittedAt(claims, n) <==> NeverForgets(claims, n))
  }

  /** Forgetting changes no answer at all if and only if no context lapses. */
  lemma ForgettingIsSafeIff(claims: seq<Claim>)
    ensures AnswersAlike(claims) <==> forall key :: !Lapses(claims, key)
  {
    if key :| Lapses(claims, key) {
      AdmittedTwiceIff(claims, key);
      var i, j :| 0 <= i < j < |claims| && claims[i].key == claims[j].key == key && AdmittedAt(claims, i)
                  && AdmittedAt(claims, j);
      NeverForgetsIsFirst(claims, i);
      NeverForgetsIsFirst(claims, j);
    } else {
      forall n | 0 <= n < |claims|
        ensures AdmittedAt(claims, n) <==> NeverForgets(claims, n)
      {
        OnlyFirstIsAdmitted(claims, n);
      }
    }
  }

  lemma OnlyFirstIsAdmitted(claims: seq<Claim>, n: nat)
    requires n < |claims| && !Lapses(claims, claims[n].key)
    ensures AdmittedAt(claims, n) <==> NeverForgets(claims, n)
  {
    var key := claims[n].key;
    NeverForgetsIsFirst(claims, n);
    if FirstAlive(claims, n, key) {
      FirstAliveIsAdmitted(claims, n, key);
    } else if AdmittedAt(claims, n) {
      var i := SomeFirstAlive(claims, n, key);
      FirstAliveIsAdmitted(claims, i, key);
      ReadmissionLapses(claims, i, n, key);
    }
  }

  // ---- Readings in order, and out of order ----

  ghost predicate ClockForward(claims: seq<Claim>) {
    forall i, j :: 0 <= i < j < |claims| ==> claims[i].now <= claims[j].now
  }

  ghost predicate FixedExpiry(claims: seq<Claim>) {
    forall i, j :: 0 <= i < j < |claims| && claims[i].key == claims[j].key ==> claims[i].expires == claims[j].expires
  }

  /** Readings that reach the lock in order, with one expiry for each context, never lapse. */
  lemma OrderedReadingsNeverLapse(claims: seq<Claim>, key: string)
    requires ClockForward(claims) && FixedExpiry(claims)
    ensures !Lapses(claims, key) && !AdmittedTwice(claims, key)
  {
    AdmittedTwiceIff(claims, key);
    forall i, m, j | 0 <= i < m <= j < |claims| && claims[j].key == claims[i].key && Alive(claims[j])
      ensures !LapsesAt(claims, i, m, j)
    {
      assert claims[i].expires == claims[j].expires && claims[m].now <= claims[j].now;
    }
  }

  /**
   A clock that only moves forward is not enough: of two claims of one context that read the
   same live time, the second takes the lock after a claim that read a time past the expiry.
   */
  lemma StaleReadingReadmits(a: string, b: string, expires: int, read: int, past: int, later: int)
    requires a != b && read < expires <= past < later
    ensures var claims := [Claim(a, expires, read), Claim(b, later, past), Claim(a, expires, read)];
            FixedExpiry(claims) && AdmittedTwice(claims, a)
  {
    var claims := [Claim(a, expires, read), Claim(b, later, past), Claim(a, expires, read)];
    assert FirstAlive(claims, 0, a) && LapsesAt(claims, 0, 1, 2);
    AdmittedTwiceIff(claims, a);
  }

  /** Joining issuer and context id loses nothing as long as issuers hold no NUL. */
  lemma KeysAreDistinct(issuer1: string, context1: string, issuer2: string, context2: string)
    requires '\0' !in issuer1 && '\0' !in issuer2 && JoinedKey(issuer1, context1) == JoinedKey(issuer2, context2)
    ensures issuer1 == issuer2 && context1 == context2
  {
    var k := JoinedKey(issuer1, context1);
    assert k[|issuer1|] == '\0' && k[|issuer2|] == '\0';
    assert forall i :: 0 <= i < |issuer1| ==> k[i] == issuer1[i] && k[i] != '\0';
    assert forall i :: 0 <= i < |issuer2| ==> k[i] == issuer2[i] && k[i] != '\0';
    assert k[..|issuer1|] == issuer1 && k[..|issuer2|] == issuer2;
    assert k[|issuer1| + 1..] == context1 && k[|issuer2| + 1..] == context2;
  }
}
