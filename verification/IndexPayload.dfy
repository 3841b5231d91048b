/** The shared form of a semantic index: a payload other workers read back. */
module IndexPayload {
  import opened Wrappers
  import opened IntentSchema
  import opened SemanticCache

  /** One stored entry; the classification is in the codec's form. */
  datatype Raw = Raw(
    key: string, tenant: string, signature: string, prompt: string, vector: Vector, code: string, expiresAt: real)

  datatype Payload = Payload(tenant: string, entries: seq<Raw>)

  /** The record codec: decoding fails on anything it did not write. */
  datatype Codec = Codec(encode: IntentClassification -> string, decode: string -> Option<IntentClassification>)

  ghost predicate Faithful(codec: Codec) {
    && (forall c :: codec.decode(codec.encode(c)) == Some(c))
    && (forall s :: codec.decode(s).Some? ==> codec.encode(codec.decode(s).value) == s)
  }

  function RawOf(codec: Codec, tenant: string, signature: string, key: string, e: Entry): Raw {
    Raw(key, tenant, signature, e.prompt, e.vector, codec.encode(e.classification), e.expiresAt)
  }

  /** Entries in order of insertion; a key without an entry is skipped. */
  function ToPayload(codec: Codec, tenant: string, signature: string, index: Index): Payload {
    Payload(tenant, Raws(codec, tenant, signature, index.entries, index.order))
  }

  function Raws(codec: Codec, tenant: string, signature: string, entries: map<string, Entry>, order: seq<string>)
    : seq<Raw>
  {
    if order == [] then []
    else
      var n := |order| - 1;
      Raws(codec, tenant, signature, entries, order[..n])
      + if order[n] in entries then [RawOf(codec, tenant, signature, order[n], entries[order[n]])] else []
  }

  /** A foreign tenant's entry, an undecodable one and one without a key are skipped. */
  predicate Readable(codec: Codec, tenant: string, raw: Raw) {
    raw.tenant == tenant && codec.decode(raw.code).Some? && raw.key != ""
  }

  function ReadInto(codec: Codec, tenant: string, index: Index, raw: Raw): Index {
    if Readable(codec, tenant, raw) then
      Index(index.entries[raw.key := Entry(raw.prompt, raw.vector, codec.decode(raw.code).value, raw.expiresAt)],
            index.order + [raw.key])
    else index
  }

  function ReadAll(codec: Codec, tenant: string, raws: seq<Raw>): Index {
    if raws == [] then EMPTY
    else ReadInto(codec, tenant, ReadAll(codec, tenant, raws[..|raws| - 1]), raws[|raws| - 1])
  }

  function FromPayload(codec: Codec, payload: Payload): Index {
    ReadAll(codec, payload.tenant, payload.entries)
  }

  /** The loop that reads a payload back. */
  method ReadPayload(codec: Codec, payload: Payload) returns (index: Index)
    ensures index == FromPayload(codec, payload)
  {
    index := EMPTY;
    for i := 0 to |payload.entries|
      invariant index == ReadAll(codec, payload.tenant, payload.entries[..i])
    {
      assert payload.entries[..i + 1][..i] == payload.entries[..i];
      var raw := payload.entries[i];
      if raw.tenant != payload.tenant {
        continue;
      }
      var classification := codec.decode(raw.code);
      if classification.None? || raw.key == "" {
        continue;
      }
      index := Index(index.entries[raw.key := Entry(raw.prompt, raw.vector, classification.value, raw.expiresAt)],
                     index.order + [raw.key]);
    }
    assert payload.entries[..|payload.entries|] == payload.entries;
  }

  /** The order names exactly the entries, none of them by the empty key. */
  ghost predicate Closed(index: Index) {
    "" !in index.order && forall k :: k in index.entries <==> k in index.order
  }

  /** The keys of the readable entries, in order. */
  function ReadableKeys(codec: Codec, tenant: string, raws: seq<Raw>): seq<string> {
    if raws == [] then []
    else
      var last := raws[|raws| - 1];
      ReadableKeys(codec, tenant, raws[..|raws| - 1]) + if Readable(codec, tenant, last) then [last.key] else []
  }

  lemma {:induction false} ReadOrder(codec: Codec, tenant: string, raws: seq<Raw>)
    ensures var index := ReadAll(codec, tenant, raws);
      index.order == ReadableKeys(codec, tenant, raws) && Closed(index)
  {
    if raws != [] {
      ReadOrder(codec, tenant, raws[..|raws| - 1]);
    }
  }

  /** What is read back is a well-formed index if and only if no two readable entries share a key. */
  lemma ReadWellFormedExact(codec: Codec, payload: Payload)
    ensures WellFormed(FromPayload(codec, payload)) <==> Distinct(ReadableKeys(codec, payload.tenant, payload.entries))
  {
    ReadOrder(codec, payload.tenant, payload.entries);
  }

  function Picked(entries: map<string, Entry>, keys: seq<string>): map<string, Entry>
    requires forall k | k in keys :: k in entries
  {
    map k | k in keys :: entries[k]
  }

  lemma ReadOneMore(
      codec: Codec, tenant: string, signature: string, entries: map<string, Entry>, keys: seq<string>, key: string)
    requires Faithful(codec) && key != "" && key in entries && forall k | k in keys :: k in entries
    ensures var raw := RawOf(codec, tenant, signature, key, entries[key]);
      ReadInto(codec, tenant, Index(Picked(entries, keys), keys), raw)
         == Index(Picked(entries, keys + [key]), keys + [key])
  {
    assert Picked(entries, keys + [key]) == Picked(entries, keys)[key := entries[key]];
  }

  lemma {:induction false} RawsReadBack(
      codec: Codec, tenant: string, signature: string, entries: map<string, Entry>, order: seq<string>)
    requires Faithful(codec) && "" !in order && forall k | k in order :: k in entries
    ensures ReadAll(codec, tenant, Raws(codec, tenant, signature, entries, order))
         == Index(Picked(entries, order), order)
  {
    if order != [] {
      hide Faithful, RawOf, ReadInto, Picked;
      var n := |order| - 1;
      var before, last := order[..n], order[n];
      assert order == before + [last];
      RawsReadBack(codec, tenant, signature, entries, before);
      ReadOneMore(codec, tenant, signature, entries, before, last);
      var raws := Raws(codec, tenant, signature, entries, order);
      assert raws[..|raws| - 1] == Raws(codec, tenant, signature, entries, before);
    } else {
      assert Picked(entries, []) == map[];
    }
  }

  /** Writing an index and reading it back gives the same index if and only if its order names exactly its entries. */
  lemma IndexRoundTrip(codec: Codec, tenant: string, signature: string, index: Index)
    requires Faithful(codec)
    ensures FromPayload(codec, ToPayload(codec, tenant, signature, index)) == index <==> Closed(index)
  {
    hide Faithful, Raws, ReadAll, Picked;
    ReadOrder(codec, tenant, Raws(codec, tenant, signature, index.entries, index.order));
    if Closed(index) {
      RawsReadBack(codec, tenant, signature, index.entries, index.order);
      PickedAll(index);
    }
  }

  lemma PickedAll(index: Index)
    requires Closed(index)
    ensures Picked(index.entries, index.order) == index.entries
  {
  }

  /** Every entry is readable, for this partition, and entries with one key are equal. */
  ghost predicate CleanPayload(codec: Codec, signature: string, payload: Payload) {
    && (forall raw | raw in payload.entries :: Readable(codec, payload.tenant, raw) && raw.signature == signature)
    && forall a, b | a in payload.entries && b in payload.entries && a.key == b.key :: a == b
  }

  lemma {:induction false} RawsMembers(
      codec: Codec, tenant: string, signature: string, entries: map<string, Entry>, order: seq<string>, raw: Raw)
    requires raw in Raws(codec, tenant, signature, entries, order)
    ensures raw.key in order && raw.key in entries
    ensures raw == RawOf(codec, tenant, signature, raw.key, entries[raw.key])
  {
    if order != [] && raw in Raws(codec, tenant, signature, entries, order[..|order| - 1]) {
      RawsMembers(codec, tenant, signature, entries, order[..|order| - 1], raw);
    }
  }

  /** Whatever was written from a closed index is clean. */
  lemma WrittenIsClean(codec: Codec, tenant: string, signature: string, index: Index)
    requires Faithful(codec) && Closed(index)
    ensures CleanPayload(codec, signature, ToPayload(codec, tenant, signature, index))
  {
    var raws := Raws(codec, tenant, signature, index.entries, index.order);
    forall raw | raw in raws
      ensures Readable(codec, tenant, raw) && raw.signature == signature && raw.key in index.entries
      ensures raw == RawOf(codec, tenant, signature, raw.key, index.entries[raw.key])
    {
      RawsMembers(codec, tenant, signature, index.entries, index.order, raw);
    }
  }

  /** The entry read for the key of a clean payload's entry is that entry. */
  lemma {:induction false} ReadEntry(codec: Codec, signature: string, tenant: string, raws: seq<Raw>, raw: Raw)
    requires Faithful(codec) && CleanPayload(codec, signature, Payload(tenant, raws)) && raw in raws
    ensures var index := ReadAll(codec, tenant, raws);
      raw.key in index.entries && RawOf(codec, tenant, signature, raw.key, index.entries[raw.key]) == raw
  {
    var last := raws[|raws| - 1];
    if raw.key != last.key {
      assert raw in raws[..|raws| - 1];
      ReadEntry(codec, signature, tenant, raws[..|raws| - 1], raw);
    }
  }

  lemma {:induction false} RawsSame(
      codec: Codec, tenant: string, signature: string, a: map<string, Entry>, b: map<string, Entry>, order: seq<string>)
    requires forall k | k in order :: k in a && k in b
    requires forall k | k in order ::
      RawOf(codec, tenant, signature, k, a[k]) == RawOf(codec, tenant, signature, k, b[k])
    ensures Raws(codec, tenant, signature, a, order) == Raws(codec, tenant, signature, b, order)
  {
    if order != [] {
      RawsSame(codec, tenant, signature, a, b, order[..|order| - 1]);
    }
  }

  lemma {:induction false} ReadableMember(codec: Codec, tenant: string, raws: seq<Raw>, key: string) returns (raw: Raw)
    requires key in ReadableKeys(codec, tenant, raws)
    ensures raw in raws && raw.key == key
  {
    var last := raws[|raws| - 1];
    if Readable(codec, tenant, last) && last.key == key {
      raw := last;
    } else {
      raw := ReadableMember(codec, tenant, raws[..|raws| - 1], key);
    }
  }

  /** Reading one more clean entry and writing again adds exactly that entry. */
  lemma RawsStep(codec: Codec, tenant: string, signature: string, raws: seq<Raw>)
    requires Faithful(codec) && raws != [] && CleanPayload(codec, signature, Payload(tenant, raws))
    ensures var before, after := ReadAll(codec, tenant, raws[..|raws| - 1]), ReadAll(codec, tenant, raws);
      Raws(codec, tenant, signature, after.entries, after.order)
      == Raws(codec, tenant, signature, before.entries, before.order) + [raws[|raws| - 1]]
  {
    hide Faithful, RawOf, Readable, ReadableKeys;
    var front, last := raws[..|raws| - 1], raws[|raws| - 1];
    var before, after := ReadAll(codec, tenant, front), ReadAll(codec, tenant, raws);
    ReadOrder(codec, tenant, front);
    ReadEntry(codec, signature, tenant, raws, last);
    forall k | k in before.order
      ensures k in after.entries
      ensures RawOf(codec, tenant, signature, k, before.entries[k])
           == RawOf(codec, tenant, signature, k, after.entries[k])
    {
      var raw := ReadableMember(codec, tenant, front, k);
      ReadEntry(codec, signature, tenant, front, raw);
      ReadEntry(codec, signature, tenant, raws, raw);
    }
    RawsSame(codec, tenant, signature, before.entries, after.entries, before.order);
    assert after.order[..|before.order|] == before.order;
  }

  lemma {:induction false} RawsRoundTrip(codec: Codec, tenant: string, signature: string, raws: seq<Raw>)
    requires Faithful(codec) && CleanPayload(codec, signature, Payload(tenant, raws))
    ensures var index := ReadAll(codec, tenant, raws);
      Raws(codec, tenant, signature, index.entries, index.order) == raws
  {
    hide Faithful, Readable;
    if raws != [] {
      RawsRoundTrip(codec, tenant, signature, raws[..|raws| - 1]);
      RawsStep(codec, tenant, signature, raws);
      assert raws == raws[..|raws| - 1] + [raws[|raws| - 1]];
    }
  }

  /** Reading a payload and writing what was read gives the payload again if and only if it is clean. */
  lemma PayloadRoundTrip(codec: Codec, signature: string, payload: Payload)
    requires Faithful(codec)
    ensures ToPayload(codec, payload.tenant, signature, FromPayload(codec, payload)) == payload
       <==> CleanPayload(codec, signature, payload)
  {
    hide Faithful, Raws, ReadAll;
    ReadOrder(codec, payload.tenant, payload.entries);
    WrittenIsClean(codec, payload.tenant, signature, FromPayload(codec, payload));
    if CleanPayload(codec, signature, payload) {
      RawsRoundTrip(codec, payload.tenant, signature, payload.entries);
    }
  }
}
