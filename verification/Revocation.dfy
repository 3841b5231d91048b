/**
  The in-memory token denylist: two insertion-ordered tables with lazy deletion, purging and a hard
  cap, compared with the plain log of what was revoked.
 */
module Revocation {
  import opened Filtering
  import opened Wrappers

  datatype ValueError = ValueError

  type Expiry = Option<real>

  /** An entry without an expiry, or with one in the future, still denies. */
  predicate Denies(e: Expiry, now: real) {
    e.None? || e.value > now
  }

  // ------------------------------------------------------------------ tables

  /** A dictionary in order of insertion; overwriting a key keeps its place. */
  datatype Table = Table(expiry: map<string, Expiry>, order: seq<string>)

  const EMPTY := Table(map[], [])

  ghost predicate WellFormed(t: Table) {
    Distinct(t.order) && forall k :: k in t.expiry <==> k in t.order
  }

  /** The table restricted to some of its keys. */
  function Restrict(t: Table, keep: set<string>): Table {
    Table(map k | k in t.expiry && k in keep :: t.expiry[k], Filter(t.order, In(keep)))
  }

  lemma RestrictWellFormed(t: Table, keep: set<string>)
    requires WellFormed(t)
    ensures WellFormed(Restrict(t, keep)) && |Restrict(t, keep).order| <= |t.order|
  {
    FilterDistinct(t.order, In(keep));
  }

  function Delete(t: Table, key: string): Table {
    Restrict(t, t.expiry.Keys - {key})
  }

  /** All entries that still deny. */
  function Purge(t: Table, now: real): Table {
    Restrict(t, set k | k in t.expiry && Denies(t.expiry[k], now))
  }

  function Put(t: Table, key: string, e: Expiry): Table {
    Table(t.expiry[key := e], if key in t.expiry then t.order else t.order + [key])
  }

  lemma PutWellFormed(t: Table, key: string, e: Expiry)
    requires WellFormed(t)
    ensures WellFormed(Put(t, key, e))
  {
  }

  /** Without its `n` oldest entries. */
  function DropOldest(t: Table, n: nat): Table
    requires n <= |t.order|
  {
    Table(map k | k in t.expiry && k in t.order[n..] :: t.expiry[k], t.order[n..])
  }

  predicate DeniesKey(t: Table, key: string, now: real) {
    key in t.expiry && Denies(t.expiry[key], now)
  }

  // --------------------------------------------------------------------- log

  datatype Kind = TokenId | Fingerprint

  /** One key denied with one expiry. */
  datatype Write = Write(kind: Kind, key: string, expiry: Expiry)

  /** What the last revocation of a key said, if it was ever revoked. */
  function LastWrite(log: seq<Write>, kind: Kind, key: string): Option<Expiry> {
    if log == [] then None
    else
      var last := log[|log| - 1];
      if last.kind == kind && last.key == key then Some(last.expiry) else LastWrite(log[..|log| - 1], kind, key)
  }

  /** The simple specification: the last revocation of the key has no expiry or a future one. */
  predicate Revoked(log: seq<Write>, kind: Kind, key: string, now: real) {
    match LastWrite(log, kind, key)
    case Some(e) => e.None? || now < e.value
    case None => false
  }

  /** From time `clock` on the table says what the log says. */
  ghost predicate Agrees(t: Table, log: seq<Write>, kind: Kind, clock: real) {
    forall key, now | now >= clock :: DeniesKey(t, key, now) <==> Revoked(log, kind, key, now)
  }

  /** Every entry carries its key's last revocation, so a table denies nothing the log does not deny. */
  ghost predicate Sound(t: Table, log: seq<Write>, kind: Kind) {
    forall key | key in t.expiry :: LastWrite(log, kind, key) == Some(t.expiry[key])
  }

  lemma SoundPutNamed(t: Table, log: seq<Write>, kind: Kind, key: Option<string>, e: Expiry)
    requires Sound(t, log, kind)
    ensures Sound(PutNamed(t, key, e), log + Writes(kind, key, e), kind)
  {
    if Named(key) {
      assert (log + Writes(kind, key, e))[..|log|] == log;
    } else {
      assert log + [] == log;
    }
  }

  lemma SoundOthers(t: Table, log: seq<Write>, kind: Kind, other: Kind, key: Option<string>, e: Expiry)
    requires Sound(t, log, kind) && kind != other
    ensures Sound(t, log + Writes(other, key, e), kind)
  {
    if Named(key) {
      assert (log + Writes(other, key, e))[..|log|] == log;
    } else {
      assert log + [] == log;
    }
  }

  lemma WrittenSound(
      before: Tables, now: real, cap: nat, log: seq<Write>,
      tokenId: Option<string>, fingerprint: Option<string>, e: Expiry)
    requires Sound(before.ids, log, TokenId) && Sound(before.fingerprints, log, Fingerprint)
    ensures var more := log + Writes(TokenId, tokenId, e) + Writes(Fingerprint, fingerprint, e);
      var rest := Evicted(Written(before, now, tokenId, fingerprint, e), cap);
      Sound(rest.ids, more, TokenId) && Sound(rest.fingerprints, more, Fingerprint)
  {
    var mid := log + Writes(TokenId, tokenId, e);
    var ids, fingerprints := Purge(before.ids, now), Purge(before.fingerprints, now);
    SoundPutNamed(ids, log, TokenId, tokenId, e);
    SoundOthers(PutNamed(ids, tokenId, e), mid, TokenId, Fingerprint, fingerprint, e);
    SoundOthers(fingerprints, log, Fingerprint, TokenId, tokenId, e);
    SoundPutNamed(fingerprints, mid, Fingerprint, fingerprint, e);
    hide PutNamed, Writes, Purge;
  }

  lemma AgreesPurge(t: Table, log: seq<Write>, kind: Kind, clock: real, now: real)
    requires Agrees(t, log, kind, clock) && now >= clock
    ensures Agrees(Purge(t, now), log, kind, now)
  {
    forall key, later | later >= now
      ensures DeniesKey(Purge(t, now), key, later) <==> Revoked(log, kind, key, later)
    {
      assert DeniesKey(t, key, later) <==> Revoked(log, kind, key, later);
    }
  }

  lemma AgreesDelete(t: Table, log: seq<Write>, kind: Kind, clock: real, now: real, key: string)
    requires Agrees(t, log, kind, clock) && now >= clock && !DeniesKey(t, key, now)
    ensures Agrees(Delete(t, key), log, kind, now)
  {
    forall k, later | later >= now
      ensures DeniesKey(Delete(t, key), k, later) <==> Revoked(log, kind, k, later)
    {
      assert DeniesKey(t, k, later) <==> Revoked(log, kind, k, later);
    }
  }

  lemma AgreesPut(t: Table, log: seq<Write>, kind: Kind, clock: real, key: string, e: Expiry)
    requires Agrees(t, log, kind, clock)
    ensures Agrees(Put(t, key, e), log + [Write(kind, key, e)], kind, clock)
  {
    var more := log + [Write(kind, key, e)];
    assert more[..|log|] == log;
    forall k, now | now >= clock ensures DeniesKey(Put(t, key, e), k, now) <==> Revoked(more, kind, k, now) {
      assert DeniesKey(t, k, now) <==> Revoked(log, kind, k, now);
    }
  }

  lemma AgreesOther(t: Table, log: seq<Write>, kind: Kind, clock: real, w: Write)
    requires Agrees(t, log, kind, clock) && w.kind != kind
    ensures Agrees(t, log + [w], kind, clock)
  {
    var more := log + [w];
    assert more[..|log|] == log;
    forall k, now | now >= clock ensures DeniesKey(t, k, now) <==> Revoked(more, kind, k, now) {
      assert Revoked(more, kind, k, now) <==> Revoked(log, kind, k, now);
    }
  }

  // ---------------------------------------------------------------- eviction

  datatype Tables = Tables(ids: Table, fingerprints: Table)

  function Size(ts: Tables): nat {
    |ts.ids.order| + |ts.fingerprints.order|
  }

  function Min(a: nat, b: nat): nat {
    if a <= b then a else b
  }

  /** Without `n` entries: the oldest ids go first, and only then the oldest fingerprints. */
  function DropMany(ts: Tables, n: nat): Tables
    requires n <= Size(ts)
  {
    var fromIds := Min(n, |ts.ids.order|);
    Tables(DropOldest(ts.ids, fromIds), DropOldest(ts.fingerprints, n - fromIds))
  }

  /** What eviction must leave: the excess is dropped. */
  function Evicted(ts: Tables, cap: nat): Tables {
    DropMany(ts, Excess(ts, cap))
  }

  lemma DropWellFormed(t: Table, n: nat)
    requires WellFormed(t) && n <= |t.order|
    ensures WellFormed(DropOldest(t, n))
  {
    var rest := t.order[n..];
    assert forall k | k in rest :: k in t.order;
    assert forall i | 0 <= i < |rest| :: rest[i] == t.order[n + i];
  }

  lemma DropOneMore(t: Table, n: nat)
    requires WellFormed(t) && n < |t.order|
    ensures WellFormed(DropOldest(t, n)) && |DropOldest(t, n).order| == |t.order| - n
    ensures DropOldest(t, n + 1) == DropOldest(DropOldest(t, n), 1)
    ensures WellFormed(DropOldest(t, n + 1)) && |DropOldest(t, n + 1).order| == |t.order| - n - 1
  {
    DropWellFormed(t, n);
    DropWellFormed(t, n + 1);
    var rest := t.order[n..];
    assert rest[1..] == t.order[n + 1..];
    assert forall k | k in t.order[n + 1..] :: k in rest;
    hide WellFormed, Distinct;
  }

  ghost predicate BothWellFormed(ts: Tables) {
    WellFormed(ts.ids) && WellFormed(ts.fingerprints)
  }

  lemma DropManyKeeps(ts: Tables, n: nat)
    requires BothWellFormed(ts) && n <= Size(ts)
    ensures BothWellFormed(DropMany(ts, n)) && Size(DropMany(ts, n)) == Size(ts) - n
    ensures |DropMany(ts, n).fingerprints.order| < |ts.fingerprints.order| ==> DropMany(ts, n).ids.order == []
    ensures n == 0 ==> DropMany(ts, n) == ts
  {
    var fromIds := Min(n, |ts.ids.order|);
    DropWellFormed(ts.ids, fromIds);
    DropWellFormed(ts.fingerprints, n - fromIds);
    hide WellFormed;
    if n == 0 {
      DropNone(ts.ids);
      DropNone(ts.fingerprints);
    }
  }

  lemma DropNone(t: Table)
    requires WellFormed(t)
    ensures DropOldest(t, 0) == t
  {
    assert t.order[0..] == t.order;
  }

  function Popped(ts: Tables): Tables
    requires Size(ts) > 0
  {
    if ts.ids.order != [] then Tables(DropOldest(ts.ids, 1), ts.fingerprints)
    else Tables(ts.ids, DropOldest(ts.fingerprints, 1))
  }

  /** One more entry to drop: an id while there is one, a fingerprint otherwise. */
  lemma DropManyNext(ts: Tables, n: nat)
    requires BothWellFormed(ts) && n < Size(ts)
    ensures var left := DropMany(ts, n);
      Size(left) > 0 && DropMany(ts, n + 1) == Popped(left)
  {
    if n < |ts.ids.order| {
      DropOneMore(ts.ids, n);
    } else {
      DropOneMore(ts.fingerprints, n - |ts.ids.order|);
    }
    hide WellFormed;
  }

  class InMemoryRevocationStore {
    const maxEntries: nat
    var byId: Table
    var byFingerprint: Table
    /** Everything ever revoked, oldest first. */
    ghost var log: seq<Write>
    /** The time of the last call. */
    ghost var clock: real
    /** No call went back in time and the cap never evicted anything. */
    ghost var steady: bool

    ghost predicate Valid()
      reads this
    {
      && WellFormed(byId) && WellFormed(byFingerprint)
      && |byId.order| + |byFingerprint.order| <= maxEntries
      && Sound(byId, log, TokenId) && Sound(byFingerprint, log, Fingerprint)
      && (steady ==> Agrees(byId, log, TokenId, clock) && Agrees(byFingerprint, log, Fingerprint, clock))
    }

    constructor (maxEntries: nat, now: real)
      ensures Valid() && this.maxEntries == maxEntries && byId == EMPTY && byFingerprint == EMPTY
      ensures log == [] && clock == now && steady
    {
      this.maxEntries := maxEntries;
      byId, byFingerprint := EMPTY, EMPTY;
      log, clock, steady := [], now, true;
    }

    /** True when the token's id or the credential's fingerprint is denied. Lookups delete what has expired. */
    method IsRevoked(tokenId: Option<string>, fingerprint: Option<string>, now: real) returns (revoked: bool)
      requires Valid()
      modifies `byId, `byFingerprint, `clock, `steady
      ensures Valid() && clock == now
      ensures revoked <==> Hit(old(byId), tokenId, now) || Hit(old(byFingerprint), fingerprint, now)
      ensures byId == Looked(old(byId), tokenId, now)
      ensures byFingerprint == if Hit(old(byId), tokenId, now) then old(byFingerprint)
                               else Looked(old(byFingerprint), fingerprint, now)
      ensures Forgets(old(byId), byId, tokenId, now)
      ensures if Hit(old(byId), tokenId, now) then byFingerprint == old(byFingerprint)
              else Forgets(old(byFingerprint), byFingerprint, fingerprint, now)
      ensures steady <==> old(steady) && old(clock) <= now
      ensures revoked ==>
        || (Named(tokenId) && Revoked(log, TokenId, tokenId.value, now))
        || (Named(fingerprint) && Revoked(log, Fingerprint, fingerprint.value, now))
      ensures steady ==>
        (revoked <==> (Named(tokenId) && Revoked(log, TokenId, tokenId.value, now))
                      || (Named(fingerprint) && Revoked(log, Fingerprint, fingerprint.value, now)))
    {
      hide Forgets;
      LookedForgets(byId, tokenId, now);
      LookedForgets(byFingerprint, fingerprint, now);
      LookedAgrees(byId, log, TokenId, clock, now, tokenId);
      LookedAgrees(byFingerprint, log, Fingerprint, clock, now, fingerprint);
      steady, clock := steady && clock <= now, now;
      revoked := Hit(byId, tokenId, now);
      byId := Looked(byId, tokenId, now);
      if !revoked {
        revoked := Hit(byFingerprint, fingerprint, now);
        byFingerprint := Looked(byFingerprint, fingerprint, now);
      }
    }

    /** Deny an id, a fingerprint or both; expired entries go first, and the cap is enforced last. */
    method Revoke(tokenId: Option<string>, fingerprint: Option<string>, expiresAt: Expiry, now: real)
      returns (r: Result<(), ValueError>)
      requires Valid()
      modifies this
      ensures Valid()
      ensures r.Failure? <==> tokenId.None? && fingerprint.None?
      ensures r.Failure? ==> unchanged(this)
      ensures r.Success? ==>
        var written := Written(old(Tables(byId, byFingerprint)), now, tokenId, fingerprint, expiresAt);
        && Tables(byId, byFingerprint) == Evicted(written, maxEntries)
        && (|byFingerprint.order| < |written.fingerprints.order| ==> byId.order == [])
        && log == old(log) + Writes(TokenId, tokenId, expiresAt) + Writes(Fingerprint, fingerprint, expiresAt)
        && clock == now
        && (steady <==> old(steady) && old(clock) <= now && Size(written) <= maxEntries)
        && (Denies(expiresAt, now) ==>
              InForce(written, Tables(byId, byFingerprint), maxEntries, tokenId, fingerprint, now))
    {
      hide Agrees, Sound, WellFormed, Purge, PutNamed, Evicted, Writes, InForce, Denies;
      if tokenId.None? && fingerprint.None? {
        return Failure(ValueError);
      }
      var ids := PurgeTable(byId, now);
      var fingerprints := PurgeTable(byFingerprint, now);
      var written := Tables(PutNamed(ids, tokenId, expiresAt), PutNamed(fingerprints, fingerprint, expiresAt));
      PutNamedWellFormed(ids, tokenId, expiresAt);
      PutNamedWellFormed(fingerprints, fingerprint, expiresAt);
      ghost var before := log;
      log := log + Writes(TokenId, tokenId, expiresAt) + Writes(Fingerprint, fingerprint, expiresAt);
      if steady && clock <= now {
        WrittenAgree(byId, byFingerprint, before, clock, now, tokenId, fingerprint, expiresAt);
      }
      WrittenSound(Tables(byId, byFingerprint), now, maxEntries, before, tokenId, fingerprint, expiresAt);
      steady, clock := steady && clock <= now && Size(written) <= maxEntries, now;
      var rest := EvictOverflow(written, maxEntries);
      if Denies(expiresAt, now) {
        RevocationHolds(Tables(byId, byFingerprint), maxEntries, now, tokenId, fingerprint, expiresAt);
      }
      byId, byFingerprint := rest.ids, rest.fingerprints;
      return Success(());
    }
  }

  /** A caller's empty or missing key names nothing. */
  predicate Named(key: Option<string>) {
    key.Some? && key.value != ""
  }

  predicate Hit(t: Table, key: Option<string>, now: real) {
    Named(key) && DeniesKey(t, key.value, now)
  }

  /** The table after a lookup: an expired entry is gone. */
  function Looked(t: Table, key: Option<string>, now: real): Table {
    if Named(key) && key.value in t.expiry && !Denies(t.expiry[key.value], now) then Delete(t, key.value) else t
  }

  /** A lookup forgets the key it asked for if that has expired by now, and nothing else. */
  ghost predicate Forgets(before: Table, after: Table, key: Option<string>, now: real) {
    && (forall k :: k in after.expiry <==>
          k in before.expiry
          && !(key == Some(k) && k != "" && before.expiry[k].Some? && before.expiry[k].value <= now))
    && (forall k | k in after.expiry :: after.expiry[k] == before.expiry[k])
    && after.order == Filter(before.order, In(after.expiry.Keys))
  }

  lemma LookedForgets(t: Table, key: Option<string>, now: real)
    requires WellFormed(t)
    ensures Forgets(t, Looked(t, key, now), key, now)
  {
    var after := Looked(t, key, now);
    FilterAllOrNone(t.order, In(t.expiry.Keys));
    if after != t {
      var keep := t.expiry.Keys - {key.value};
      assert after.expiry.Keys == keep;
    }
  }

  lemma LookedAgrees(t: Table, log: seq<Write>, kind: Kind, clock: real, now: real, key: Option<string>)
    requires WellFormed(t)
    ensures WellFormed(Looked(t, key, now)) && |Looked(t, key, now).order| <= |t.order|
    ensures clock <= now && Agrees(t, log, kind, clock) ==>
      && Agrees(t, log, kind, now) && Agrees(Looked(t, key, now), log, kind, now)
      && (Named(key) ==> (Hit(t, key, now) <==> Revoked(log, kind, key.value, now)))
  {
    if Named(key) {
      RestrictWellFormed(t, t.expiry.Keys - {key.value});
    }
    if clock <= now && Agrees(t, log, kind, clock) {
      assert Named(key) ==> (DeniesKey(t, key.value, now) <==> Revoked(log, kind, key.value, now));
      if Named(key) && !DeniesKey(t, key.value, now) {
        AgreesDelete(t, log, kind, clock, now, key.value);
      }
    }
  }

  function PutNamed(t: Table, key: Option<string>, e: Expiry): Table {
    if Named(key) then Put(t, key.value, e) else t
  }

  /** The tables once expired entries are gone and the new ones are in. */
  function Written(ts: Tables, now: real, tokenId: Option<string>, fingerprint: Option<string>, e: Expiry): Tables {
    Tables(PutNamed(Purge(ts.ids, now), tokenId, e), PutNamed(Purge(ts.fingerprints, now), fingerprint, e))
  }

  lemma PutNamedWellFormed(t: Table, key: Option<string>, e: Expiry)
    requires WellFormed(t)
    ensures WellFormed(PutNamed(t, key, e))
  {
    if Named(key) {
      PutWellFormed(t, key.value, e);
    }
  }

  function Writes(kind: Kind, key: Option<string>, e: Expiry): seq<Write> {
    if Named(key) then [Write(kind, key.value, e)] else []
  }

  lemma AgreesPutNamed(t: Table, log: seq<Write>, kind: Kind, clock: real, key: Option<string>, e: Expiry)
    requires Agrees(t, log, kind, clock)
    ensures Agrees(PutNamed(t, key, e), log + Writes(kind, key, e), kind, clock)
  {
    if Named(key) {
      AgreesPut(t, log, kind, clock, key.value, e);
    } else {
      assert log + [] == log;
    }
  }

  lemma AgreesOthers(t: Table, log: seq<Write>, kind: Kind, clock: real, other: Kind, key: Option<string>, e: Expiry)
    requires Agrees(t, log, kind, clock) && kind != other
    ensures Agrees(t, log + Writes(other, key, e), kind, clock)
  {
    if Named(key) {
      AgreesOther(t, log, kind, clock, Write(other, key.value, e));
    } else {
      assert log + [] == log;
    }
  }

  lemma WrittenAgree(
      ids: Table, fingerprints: Table, log: seq<Write>, clock: real, now: real,
      tokenId: Option<string>, fingerprint: Option<string>, e: Expiry)
    requires Agrees(ids, log, TokenId, clock) && Agrees(fingerprints, log, Fingerprint, clock) && clock <= now
    ensures var more := log + Writes(TokenId, tokenId, e) + Writes(Fingerprint, fingerprint, e);
      && Agrees(PutNamed(Purge(ids, now), tokenId, e), more, TokenId, now)
      && Agrees(PutNamed(Purge(fingerprints, now), fingerprint, e), more, Fingerprint, now)
  {
    hide Agrees;
    AgreesPurge(ids, log, TokenId, clock, now);
    AgreesPurge(fingerprints, log, Fingerprint, clock, now);
    var mid := log + Writes(TokenId, tokenId, e);
    AgreesPutNamed(Purge(ids, now), log, TokenId, now, tokenId, e);
    AgreesOthers(PutNamed(Purge(ids, now), tokenId, e), mid, TokenId, now, Fingerprint, fingerprint, e);
    AgreesOthers(Purge(fingerprints, now), log, Fingerprint, now, TokenId, tokenId, e);
    AgreesPutNamed(Purge(fingerprints, now), mid, Fingerprint, now, fingerprint, e);
  }

  // ------------------------------------------------------------ the two loops

  /** Deleting one more key from what is left of a table. */
  lemma DeleteOneMore(t: Table, keep: set<string>, key: string)
    requires WellFormed(t)
    ensures Delete(Restrict(t, keep), key) == Restrict(t, keep - {key})
  {
    hide Filter, Distinct;
    var rest := Restrict(t, keep);
    assert Delete(rest, key).expiry == Restrict(t, keep - {key}).expiry;
    var others := rest.expiry.Keys - {key};
    FilterTwice(t.order, In(keep), In(others));
    FilterAgree(t.order, Both(In(keep), In(others)), In(keep - {key}));
  }

  /** The keys of the entries that no longer deny. */
  method CollectStale(t: Table, now: real) returns (stale: seq<string>)
    requires WellFormed(t)
    ensures forall k :: k in stale <==> k in t.expiry && !Denies(t.expiry[k], now)
  {
    stale := [];
    for i := 0 to |t.order|
      invariant forall k :: k in stale <==> k in t.order[..i] && !Denies(t.expiry[k], now)
    {
      if !Denies(t.expiry[t.order[i]], now) {
        stale := stale + [t.order[i]];
      }
    }
    assert t.order[..|t.order|] == t.order;
  }

  /** Delete the listed keys one by one. */
  method DeleteAll(t: Table, stale: seq<string>) returns (r: Table)
    requires WellFormed(t)
    ensures r == Restrict(t, t.expiry.Keys - set k | k in stale)
  {
    hide Restrict, Delete, Filter;
    r := t;
    ghost var left := t.expiry.Keys;
    RestrictAll(t);
    for i := 0 to |stale|
      invariant left == t.expiry.Keys - set k | k in stale[..i]
      invariant r == Restrict(t, left)
    {
      DeleteOneMore(t, left, stale[i]);
      assert stale[..i + 1] == stale[..i] + [stale[i]];
      left := left - {stale[i]};
      r := Delete(r, stale[i]);
    }
    assert stale[..|stale|] == stale;
  }

  lemma RestrictAll(t: Table)
    requires WellFormed(t)
    ensures Restrict(t, t.expiry.Keys) == t
  {
    FilterAllOrNone(t.order, In(t.expiry.Keys));
  }

  /** Collect the stale keys, then delete them. */
  method PurgeTable(t: Table, now: real) returns (r: Table)
    requires WellFormed(t)
    ensures r == Purge(t, now) && WellFormed(r) && |r.order| <= |t.order|
  {
    hide Restrict, Filter;
    var stale := CollectStale(t, now);
    r := DeleteAll(t, stale);
    ghost var live := set k | k in t.expiry && Denies(t.expiry[k], now);
    assert t.expiry.Keys - (set k | k in stale) == live;
    RestrictWellFormed(t, live);
  }

  lemma EvictedIs(ts: Tables, cap: nat, n: nat)
    requires n == if Size(ts) > cap then Size(ts) - cap else 0
    ensures Evicted(ts, cap) == DropMany(ts, n)
  {
  }

  method PopOldest(ts: Tables) returns (rest: Tables)
    requires Size(ts) > 0
    ensures rest == Popped(ts)
  {
    if ts.ids.order != [] {
      return ts.(ids := DropOldest(ts.ids, 1));
    }
    return ts.(fingerprints := DropOldest(ts.fingerprints, 1));
  }

  /** Pop the oldest id while there are too many entries, or the oldest fingerprint once no id is left. */
  method EvictOverflow(ts: Tables, cap: nat) returns (rest: Tables)
    requires BothWellFormed(ts)
    ensures rest == Evicted(ts, cap) && Size(rest) <= cap
    ensures BothWellFormed(rest)
    ensures Size(ts) <= cap ==> rest == ts
    ensures |rest.fingerprints.order| < |ts.fingerprints.order| ==> rest.ids.order == []
  {
    rest := ts;
    ghost var dropped: nat := 0;
    DropManyKeeps(ts, 0);
    hide *;
    while Size(rest) > cap
      invariant dropped <= Size(ts) && rest == DropMany(ts, dropped)
      invariant Size(rest) == Size(ts) - dropped
      invariant dropped == 0 || Size(rest) >= cap
      decreases Size(rest)
    {
      DropManyNext(ts, dropped);
      DropManyKeeps(ts, dropped + 1);
      rest := PopOldest(rest);
      dropped := dropped + 1;
    }
    DropManyKeeps(ts, dropped);
    EvictedIs(ts, cap, dropped);
  }

  // ------------------------------------------------ what survives its own call

  function Excess(ts: Tables, cap: nat): nat {
    if Size(ts) > cap then Size(ts) - cap else 0
  }

  function IndexOf(keys: seq<string>, key: string): (i: nat)
    requires key in keys
    ensures i < |keys| && keys[i] == key && key !in keys[..i]
  {
    if keys[0] == key then 0 else 1 + IndexOf(keys[1..], key)
  }

  /** An entry survives the dropping of the `n` oldest exactly when `n` is at most its place. */
  lemma DropSpares(t: Table, n: nat, key: string)
    requires WellFormed(t) && n <= |t.order| && key in t.order
    ensures key in DropOldest(t, n).expiry <==> n <= IndexOf(t.order, key)
    ensures n <= IndexOf(t.order, key) ==> DropOldest(t, n).expiry[key] == t.expiry[key]
  {
    var i := IndexOf(t.order, key);
    assert forall j | 0 <= j < |t.order| && t.order[j] == key :: j == i;
    assert n <= i ==> t.order[n..][i - n] == key;
  }

  /**
    Which of the keys just written are in force after eviction: the id exactly when the excess over the
    cap does not reach its place among the ids, the fingerprint exactly when it does not reach its place
    behind all ids.
   */
  ghost predicate InForce(
      written: Tables, rest: Tables, cap: nat, tokenId: Option<string>, fingerprint: Option<string>, now: real)
  {
    && (Named(tokenId) ==>
          tokenId.value in written.ids.order
          && (Hit(rest.ids, tokenId, now) <==> Excess(written, cap) <= IndexOf(written.ids.order, tokenId.value)))
    && (Named(fingerprint) ==>
          fingerprint.value in written.fingerprints.order
          && (Hit(rest.fingerprints, fingerprint, now) <==>
              Excess(written, cap)
              <= |written.ids.order| + IndexOf(written.fingerprints.order, fingerprint.value)))
  }

  lemma IdSpared(ts: Tables, cap: nat, key: string, now: real)
    requires WellFormed(ts.ids) && DeniesKey(ts.ids, key, now)
    ensures key in ts.ids.order
    ensures DeniesKey(Evicted(ts, cap).ids, key, now) <==> Excess(ts, cap) <= IndexOf(ts.ids.order, key)
  {
    DropSpares(ts.ids, Min(Excess(ts, cap), |ts.ids.order|), key);
    hide WellFormed, DropOldest;
  }

  lemma FingerprintSpared(ts: Tables, cap: nat, key: string, now: real)
    requires WellFormed(ts.fingerprints) && DeniesKey(ts.fingerprints, key, now)
    ensures key in ts.fingerprints.order
    ensures DeniesKey(Evicted(ts, cap).fingerprints, key, now) <==>
      Excess(ts, cap) <= |ts.ids.order| + IndexOf(ts.fingerprints.order, key)
  {
    var excess := Excess(ts, cap);
    DropSpares(ts.fingerprints, excess - Min(excess, |ts.ids.order|), key);
    hide WellFormed, DropOldest;
  }

  /** For every revocation that still denies, whatever the store held before. */
  lemma RevocationHolds(
      before: Tables, cap: nat, now: real, tokenId: Option<string>, fingerprint: Option<string>, e: Expiry)
    requires BothWellFormed(before) && Denies(e, now)
    ensures var written := Written(before, now, tokenId, fingerprint, e);
      InForce(written, Evicted(written, cap), cap, tokenId, fingerprint, now)
  {
    hide WellFormed, PutNamed, Purge, Evicted, Excess, IndexOf;
    var written := Written(before, now, tokenId, fingerprint, e);
    WrittenEntry(before.ids, now, tokenId, e);
    WrittenEntry(before.fingerprints, now, fingerprint, e);
    if Named(tokenId) {
      IdSpared(written, cap, tokenId.value, now);
    }
    if Named(fingerprint) {
      FingerprintSpared(written, cap, fingerprint.value, now);
    }
  }

  lemma WrittenEntry(t: Table, now: real, key: Option<string>, e: Expiry)
    requires WellFormed(t)
    ensures var after := PutNamed(Purge(t, now), key, e);
      WellFormed(after)
      && (Named(key) ==> key.value in after.order && key.value in after.expiry && after.expiry[key.value] == e)
  {
    RestrictWellFormed(t, set k | k in t.expiry && Denies(t.expiry[k], now));
    PutNamedWellFormed(Purge(t, now), key, e);
  }

  function Alone(key: string): Table {
    Table(map[key := None], [key])
  }

  lemma FirstRevocation(fingerprint: string, now: real)
    requires fingerprint != ""
    ensures Evicted(Written(Tables(EMPTY, EMPTY), now, None, Some(fingerprint), None), 1)
         == Tables(EMPTY, Alone(fingerprint))
  {
    assert Purge(EMPTY, now) == EMPTY;
    DropNone(EMPTY);
    DropNone(Alone(fingerprint));
  }

  lemma SecondRevocation(id: string, fingerprint: string, now: real)
    requires id != "" && fingerprint != ""
    ensures Evicted(Written(Tables(EMPTY, Alone(fingerprint)), now, Some(id), None, None), 1)
         == Tables(EMPTY, Alone(fingerprint))
  {
    assert Purge(EMPTY, now) == EMPTY;
    assert Purge(Alone(fingerprint), now) == Alone(fingerprint);
    DropNone(Alone(fingerprint));
    assert DropOldest(Alone(id), 1) == EMPTY;
  }

  /** A revocation can succeed and deny nothing: a full store evicts the id just revoked, not the older fingerprint. */
  method NewestRevocationLost(id: string, fingerprint: string, first: real, second: real, later: real)
    returns (idDenied: bool, fingerprintDenied: bool)
    requires id != "" && fingerprint != ""
    ensures !idDenied && fingerprintDenied
  {
    var store := new InMemoryRevocationStore(1, first);
    var r := store.Revoke(None, Some(fingerprint), None, first);
    FirstRevocation(fingerprint, first);
    r := store.Revoke(Some(id), None, None, second);
    SecondRevocation(id, fingerprint, second);
    idDenied := store.IsRevoked(Some(id), None, later);
    fingerprintDenied := store.IsRevoked(None, Some(fingerprint), later);
  }

  // --------------------------------------------------------- eviction and age

  datatype Key = Key(kind: Kind, name: string)

  /** The order in which entries are evicted. */
  function Queue(ts: Tables): seq<Key> {
    seq(|ts.ids.order|, i requires 0 <= i < |ts.ids.order| => Key(TokenId, ts.ids.order[i]))
    + seq(|ts.fingerprints.order|,
          i requires 0 <= i < |ts.fingerprints.order| => Key(Fingerprint, ts.fingerprints.order[i]))
  }

  /** When a key was last revoked, counted in revocations; zero if never. */
  function LastAt(log: seq<Write>, k: Key): nat {
    if log == [] then 0
    else
      var last := log[|log| - 1];
      if last.kind == k.kind && last.key == k.name then |log| else LastAt(log[..|log| - 1], k)
  }

  /** The number of the key's last revocation in the log, counted from one, or zero if it was never revoked. */
  lemma {:induction false} LastAtMeaning(log: seq<Write>, k: Key)
    ensures var n := LastAt(log, k);
      && n <= |log| && (n > 0 ==> log[n - 1].kind == k.kind && log[n - 1].key == k.name)
      && forall i | n <= i < |log| :: log[i].kind != k.kind || log[i].key != k.name
  {
    if log != [] {
      LastAtMeaning(log[..|log| - 1], k);
    }
  }

  /** However many entries go, each was last revoked before every one that stays. */
  ghost predicate EvictsOldest(ts: Tables, log: seq<Write>) {
    forall n: nat, gone, kept |
      n <= Size(ts) && gone in Queue(ts) && gone !in Queue(DropMany(ts, n)) && kept in Queue(DropMany(ts, n)) ::
      LastAt(log, gone) < LastAt(log, kept)
  }

  lemma QueueAfter(ts: Tables, n: nat)
    requires n <= Size(ts)
    ensures Queue(DropMany(ts, n)) == Queue(ts)[n..]
  {
  }

  lemma QueueDistinct(ts: Tables)
    requires BothWellFormed(ts)
    ensures Distinct(Queue(ts)) && |Queue(ts)| == Size(ts)
  {
  }

  /**
    Eviction takes the oldest entries if and only if the ids, followed by the fingerprints, already stand
    in the order of their last revocations.
   */
  lemma EvictsOldestExact(ts: Tables, log: seq<Write>)
    requires BothWellFormed(ts)
    ensures EvictsOldest(ts, log) <==>
      (forall i, j | 0 <= i < j < |Queue(ts)| :: LastAt(log, Queue(ts)[i]) < LastAt(log, Queue(ts)[j]))
  {
    hide DropMany, Queue, LastAt;
    QueueDistinct(ts);
    var q := Queue(ts);
    if EvictsOldest(ts, log) {
      forall i, j | 0 <= i < j < |q| ensures LastAt(log, q[i]) < LastAt(log, q[j]) {
        QueueAfter(ts, i + 1);
        assert q[i] !in q[i + 1..] && q[i + 1..][j - (i + 1)] == q[j];
      }
    }
    if forall i, j | 0 <= i < j < |q| :: LastAt(log, q[i]) < LastAt(log, q[j]) {
      forall n: nat, gone, kept |
        n <= Size(ts) && gone in q && gone !in Queue(DropMany(ts, n)) && kept in Queue(DropMany(ts, n))
        ensures LastAt(log, gone) < LastAt(log, kept)
      {
        QueueAfter(ts, n);
        var i :| 0 <= i < |q| && q[i] == gone;
        var j :| 0 <= j < |q| - n && q[n..][j] == kept;
        assert forall k | n <= k < |q| :: q[n..][k - n] == q[k];
        assert i < n + j;
      }
    }
  }
}
