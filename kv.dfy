/**
 * util/db/kv/__init__.py: the in-memory side of the key-value store. A
 * `Config` reads and writes a store shared by every Config of the same
 * namespace, remembers which keys it changed, and on being awaited hands
 * exactly those keys to the database (deletions for absent keys, upserts for
 * the rest), restoring them as dirty when the write fails.
 *
 * The JSON text codec is a pair of function parameters `enc`/`dec`; the
 * database write is modelled by its effect on a map of rows, and whether it
 * fails is a parameter.
 */
module Kv {
  import opened Wrappers
  import opened Text

  /* ---------------- Keys ---------------- */

  datatype KeyPart = Str(s: string) | Int(i: int)

  /** A key as callers give it: one string or integer, or a sequence of them. */
  datatype Key = One(part: KeyPart) | Many(parts: seq<KeyPart>)

  function PartText(p: KeyPart): string
  {
    match p
    case Str(s) => s
    case Int(i) => IntToString(i)
  }

  /** encode_key: the tuple of the parts' strings; a lone part is a 1-tuple. */
  function EncodeKey(k: Key): (r: seq<string>)
    ensures k.One? ==> r == [PartText(k.part)]
    ensures k.Many? ==> |r| == |k.parts| && forall i :: 0 <= i < |r| ==> r[i] == PartText(k.parts[i])
  {
    match k
    case One(p) => [PartText(p)]
    case Many(ps) => seq(|ps|, i requires 0 <= i < |ps| => PartText(ps[i]))
  }

  /** A lone part and the 1-sequence holding it name the same row. */
  lemma OneIsSingleton(p: KeyPart)
    ensures EncodeKey(One(p)) == EncodeKey(Many([p]))
  {
  }

  /** String keys are encoded as themselves, so distinct string sequences stay distinct. */
  lemma StringKeysInjective(a: seq<string>, b: seq<string>)
    requires EncodeKey(Many(seq(|a|, i requires 0 <= i < |a| => Str(a[i]))))
          == EncodeKey(Many(seq(|b|, i requires 0 <= i < |b| => Str(b[i]))))
    ensures a == b
  {
    var ea := EncodeKey(Many(seq(|a|, i requires 0 <= i < |a| => Str(a[i]))));
    assert |a| == |ea| == |b|;
    forall i | 0 <= i < |a|
      ensures a[i] == b[i]
    {
      assert ea[i] == a[i];
    }
  }

  /** An integer and its decimal string are the same key. */
  lemma IntAndItsTextCollide(n: int)
    ensures EncodeKey(One(Int(n))) == EncodeKey(One(Str(IntToString(n))))
  {
  }

  /* ---------------- JSON values ---------------- */

  /**
   * A JSON value as Python holds it. `Null` is None; FrozenList and
   * FrozenDict are the immutable containers values are read back as.
   */
  datatype Json =
    | Null
    | Bool(b: bool)
    | Num(n: int)
    | Text(s: string)
    | List(items: seq<Json>)
    | Dict(entries: seq<(string, Json)>)
    | FrozenList(items: seq<Json>)
    | FrozenDict(entries: seq<(string, Json)>)

  /** json_freeze: lists and dicts become frozen, all the way down; the rest is unchanged. */
  function Freeze(v: Json): (r: Json)
    ensures v.List? ==> r.FrozenList? && |r.items| == |v.items|
    ensures v.Dict? ==> r.FrozenDict? && |r.entries| == |v.entries|
    ensures !v.List? && !v.Dict? ==> r == v
  {
    match v
    case List(xs) => FrozenList(seq(|xs|, i requires 0 <= i < |xs| => Freeze(xs[i])))
    case Dict(kvs) => FrozenDict(seq(|kvs|, i requires 0 <= i < |kvs| => (kvs[i].0, Freeze(kvs[i].1))))
    case _ => v
  }

  /** Holds no mutable list or dict that freezing would reach. */
  predicate Frozen(v: Json)
  {
    match v
    case List(_) => false
    case Dict(_) => false
    case FrozenList(xs) => forall i :: 0 <= i < |xs| ==> Frozen(xs[i])
    case FrozenDict(kvs) => forall i :: 0 <= i < |kvs| ==> Frozen(kvs[i].1)
    case _ => true
  }

  /**
   * Frozen containers hold only frozen values, as json_freeze builds them;
   * plain containers may hold either.
   */
  predicate WellFrozen(v: Json)
  {
    match v
    case List(xs) => forall i :: 0 <= i < |xs| ==> WellFrozen(xs[i])
    case Dict(kvs) => forall i :: 0 <= i < |kvs| ==> WellFrozen(kvs[i].1)
    case FrozenList(_) => Frozen(v)
    case FrozenDict(_) => Frozen(v)
    case _ => true
  }

  lemma FrozenIsWellFrozen(v: Json)
    requires Frozen(v)
    ensures WellFrozen(v) && Freeze(v) == v
  {
  }

  /** What freezing returns has nothing left to freeze. */
  lemma {:induction false} FreezeIsFrozen(v: Json)
    requires WellFrozen(v)
    ensures Frozen(Freeze(v))
  {
    var r := Freeze(v);
    match v
    case List(xs) =>
      forall i | 0 <= i < |xs|
        ensures Frozen(r.items[i])
      {
        FreezeIsFrozen(xs[i]);
      }
    case Dict(kvs) =>
      forall i | 0 <= i < |kvs|
        ensures Frozen(r.entries[i].1)
      {
        FreezeIsFrozen(kvs[i].1);
      }
    case _ =>
  }

  /** Freezing is idempotent. */
  lemma FreezeIdempotent(v: Json)
    requires WellFrozen(v)
    ensures Freeze(Freeze(v)) == Freeze(v)
  {
    FreezeIsFrozen(v);
  }

  /**
   * The thawing encoder writes frozen containers as plain ones: Thaw is the
   * value the encoder sees.
   */
  function Thaw(v: Json): Json
  {
    match v
    case List(xs) => List(seq(|xs|, i requires 0 <= i < |xs| => Thaw(xs[i])))
    case Dict(kvs) => Dict(seq(|kvs|, i requires 0 <= i < |kvs| => (kvs[i].0, Thaw(kvs[i].1))))
    case FrozenList(xs) => List(seq(|xs|, i requires 0 <= i < |xs| => Thaw(xs[i])))
    case FrozenDict(kvs) => Dict(seq(|kvs|, i requires 0 <= i < |kvs| => (kvs[i].0, Thaw(kvs[i].1))))
    case _ => v
  }

  /** Freezing changes no content: encoding a frozen value writes the original. */
  lemma {:induction false} ThawOfFreeze(v: Json)
    ensures Thaw(Freeze(v)) == Thaw(v)
  {
    match v
    case List(xs) =>
      forall i | 0 <= i < |xs|
        ensures Thaw(Freeze(xs[i])) == Thaw(xs[i])
      {
        ThawOfFreeze(xs[i]);
      }
    case Dict(kvs) =>
      forall i | 0 <= i < |kvs|
        ensures Thaw(Freeze(kvs[i].1)) == Thaw(kvs[i].1)
      {
        ThawOfFreeze(kvs[i].1);
      }
    case _ =>
  }

  /** A value written and read back is frozen again to what freezing it gives. */
  lemma {:induction false} FreezeOfThaw(v: Json)
    requires WellFrozen(v)
    ensures Freeze(Thaw(v)) == Freeze(v)
    decreases v, 1
  {
    match v
    case List(_) => FreezeOfThawItems(v);
    case FrozenList(_) => FreezeOfThawItems(v);
    case Dict(_) => FreezeOfThawEntries(v);
    case FrozenDict(_) => FreezeOfThawEntries(v);
    case _ =>
  }

  lemma {:induction false} FreezeOfThawItems(v: Json)
    requires (v.List? || v.FrozenList?) && WellFrozen(v)
    ensures Freeze(Thaw(v)) == Freeze(v)
    decreases v, 0
  {
    var xs := v.items;
    var a, b := Freeze(Thaw(v)).items, Freeze(v).items;
    forall i | 0 <= i < |xs|
      ensures a[i] == b[i]
    {
      if v.FrozenList? {
        FrozenIsWellFrozen(xs[i]);
      }
      FreezeOfThaw(xs[i]);
    }
  }

  lemma {:induction false} FreezeOfThawEntries(v: Json)
    requires (v.Dict? || v.FrozenDict?) && WellFrozen(v)
    ensures Freeze(Thaw(v)) == Freeze(v)
    decreases v, 0
  {
    var kvs := v.entries;
    var a, b := Freeze(Thaw(v)).entries, Freeze(v).entries;
    forall i | 0 <= i < |kvs|
      ensures a[i] == b[i]
    {
      if v.FrozenDict? {
        FrozenIsWellFrozen(kvs[i].1);
      }
      FreezeOfThaw(kvs[i].1);
    }
  }

  /** json_encode: None has no text; anything else is encoded after thawing. */
  function Encode(enc: Json -> string, v: Json): (r: Option<string>)
    ensures r.None? <==> v.Null?
  {
    if v.Null? then None else Some(enc(Thaw(v)))
  }

  /** json_decode: no text is None; text is parsed and frozen. */
  function Decode(dec: string -> Json, t: Option<string>): (r: Json)
    ensures t.None? ==> r.Null?
  {
    if t.None? then Null else Freeze(dec(t.value))
  }

  /**
   * When the text codec reads back what it wrote (as plain containers),
   * decoding an encoded value gives it back frozen.
   */
  lemma DecodeOfEncode(enc: Json -> string, dec: string -> Json, v: Json)
    requires !v.Null? && WellFrozen(v) && dec(enc(Thaw(v))) == Thaw(v)
    ensures Decode(dec, Encode(enc, v)) == Freeze(v)
  {
    FreezeOfThaw(v);
  }

  /* ---------------- Writing to the database ---------------- */

  /** Rows of one namespace: encoded key to JSON text. */
  type Rows = map<seq<string>, string>

  /** The rows set_raw_values deletes: keys whose value is None. */
  function Removals(batch: map<seq<string>, Option<string>>): (r: set<seq<string>>)
    ensures forall k :: k in r <==> k in batch && batch[k].None?
  {
    set k | k in batch && batch[k].None?
  }

  /** The rows set_raw_values inserts or overwrites: keys with text. */
  function Updates(batch: map<seq<string>, Option<string>>): (r: map<seq<string>, string>)
    ensures forall k :: k in r <==> k in batch && batch[k].Some?
  {
    map k | k in batch && batch[k].Some? :: batch[k].value
  }

  /** Every key of a batch lands in exactly one of the two statements. */
  lemma PartitionIsExact(batch: map<seq<string>, Option<string>>)
    ensures Removals(batch) !! Updates(batch).Keys
    ensures Removals(batch) + Updates(batch).Keys == batch.Keys
  {
  }

  /** set_raw_values in one transaction: the deletions, then the upserts. */
  function SetRawValues(rows: Rows, batch: map<seq<string>, Option<string>>): Rows
  {
    (rows - Removals(batch)) + Updates(batch)
  }

  /** After the write, each key of the batch holds the batch's value, and others are untouched. */
  lemma SetRawValuesEffect(rows: Rows, batch: map<seq<string>, Option<string>>, k: seq<string>)
    ensures k in batch && batch[k].None? ==> k !in SetRawValues(rows, batch)
    ensures k in batch && batch[k].Some? ==> k in SetRawValues(rows, batch) && SetRawValues(rows, batch)[k] == batch[k].value
    ensures k !in batch ==>
      (k in SetRawValues(rows, batch) <==> k in rows) && (k in rows ==> SetRawValues(rows, batch)[k] == rows[k])
  {
  }

  /* ---------------- Config ---------------- */

  /** ConfigStore: the in-memory copy of one namespace, shared by its Config objects. */
  class ConfigStore {
    var values: Rows

    constructor(rows: Rows)
      ensures values == rows
    {
      values := rows;
    }
  }

  /** The database table, as the rows of each namespace. */
  class Database {
    var rows: map<string, Rows>

    constructor()
      ensures rows == map[]
    {
      rows := map[];
    }

    /** set_raw_values: failing leaves the table as it was (the transaction rolls back). */
    method SetRaw(namespace: string, batch: map<seq<string>, Option<string>>, fails: bool)
      modifies this
      ensures fails ==> rows == old(rows)
      ensures !fails ==> rows == old(rows)[namespace :=
        SetRawValues(if namespace in old(rows) then old(rows)[namespace] else map[], batch)]
    {
      if fails {
        return;
      }
      var current := if namespace in rows then rows[namespace] else map[];
      rows := rows[namespace := SetRawValues(current, batch)];
    }
  }

  class Config {
    const namespace: string
    const store: ConfigStore
    var dirty: set<seq<string>>

    constructor(namespace: string, store: ConfigStore)
      ensures this.namespace == namespace && this.store == store && dirty == {}
    {
      this.namespace := namespace;
      this.store := store;
      dirty := {};
    }

    /** __getitem__: None for an absent key, else the decoded stored text. */
    function Get(dec: string -> Json, key: Key): (r: Json)
      reads store
      ensures EncodeKey(key) !in store.values ==> r.Null?
      ensures EncodeKey(key) in store.values ==> r == Freeze(dec(store.values[EncodeKey(key)]))
    {
      var k := EncodeKey(key);
      Decode(dec, if k in store.values then Some(store.values[k]) else None)
    }

    /**
     * __setitem__: None removes the key (absent is fine), anything else
     * stores its encoding; either way the key becomes dirty.
     */
    method Set(enc: Json -> string, key: Key, value: Json)
      modifies this, store
      ensures value.Null? ==> store.values == old(store.values) - {EncodeKey(key)}
      ensures !value.Null? ==> store.values == old(store.values)[EncodeKey(key) := enc(Thaw(value))]
      ensures dirty == old(dirty) + {EncodeKey(key)}
    {
      var k := EncodeKey(key);
      var v := Encode(enc, value);
      if v.None? {
        store.values := store.values - {k};
      } else {
        store.values := store.values[k := v.value];
      }
      dirty := dirty + {k};
    }

    /** The batch an await writes: each dirty key with its current text, None when absent. */
    function Pending(): (batch: map<seq<string>, Option<string>>)
      reads this, store
      ensures batch.Keys == dirty
    {
      map k | k in dirty :: if k in store.values then Some(store.values[k]) else None
    }

    /**
     * __await__: writes exactly the dirty keys and clears them; when the
     * write fails the keys are dirty again.
     */
    method Flush(db: Database, fails: bool)
      modifies this, db
      ensures fails ==> dirty == old(dirty) && db.rows == old(db.rows)
      ensures !fails ==> dirty == {} && db.rows == old(db.rows)[namespace :=
        SetRawValues(if namespace in old(db.rows) then old(db.rows)[namespace] else map[], old(Pending()))]
    {
      var pending := Pending();
      var flushed := dirty;
      dirty := {};
      db.SetRaw(namespace, pending, fails);
      if fails {
        dirty := dirty + flushed;
      }
    }

    /** __getattr__: names starting with "_" are not keys and read as None. */
    function GetAttr(dec: string -> Json, name: string): (r: Json)
      reads store
      ensures name != [] && name[0] == '_' ==> r.Null?
      ensures !(name != [] && name[0] == '_') ==> r == Get(dec, One(Str(name)))
    {
      if name != [] && name[0] == '_' then Null else Get(dec, One(Str(name)))
    }

    /** __setattr__: names starting with "_" bypass the store. */
    method SetAttr(enc: Json -> string, name: string, value: Json)
      modifies this, store
      ensures name != [] && name[0] == '_' ==> store.values == old(store.values) && dirty == old(dirty)
      ensures !(name != [] && name[0] == '_') ==>
        (value.Null? ==> store.values == old(store.values) - {[name]})
        && (!value.Null? ==> store.values == old(store.values)[[name] := enc(Thaw(value))])
        && dirty == old(dirty) + {[name]}
    {
      if name != [] && name[0] == '_' {
        return;
      }
      Set(enc, One(Str(name)), value);
    }
  }

  /**
   * After a successful flush the database agrees with the in-memory store on
   * every key that was dirty: absent keys are deleted, present keys hold the
   * stored text.
   */
  lemma FlushSyncsDirtyKeys(rows: Rows, values: Rows, dirty: set<seq<string>>, k: seq<string>)
    requires k in dirty
    ensures var batch := map k | k in dirty :: if k in values then Some(values[k]) else None;
      var after := SetRawValues(rows, batch);
      (k in after <==> k in values) && (k in values ==> after[k] == values[k])
  {
    var batch := map k | k in dirty :: if k in values then Some(values[k]) else None;
    SetRawValuesEffect(rows, batch, k);
  }
}
