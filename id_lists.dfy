/**
 * The configuration shared by plugins/privileges.py and plugins/locations.py:
 * a map from a name (a privilege, a location) to a record of id lists
 * ("users"/"roles", "channels"/"categories"), each id written in decimal.
 * Both plugins create and delete records and add and remove ids the same
 * way; the reply each handler sends is returned as a value.
 */
module IdLists {
  /** A record: field name to list of ids. */
  type Record = map<string, seq<string>>

  /** The configuration of one plugin: name to record; an absent name is None. */
  type Conf = map<string, Record>

  /** The message a handler sends. */
  datatype Reply =
    | Exists       // "... already exists"
    | Missing      // "... does not exist"
    | Created
    | Deleted
    | AlreadyIn    // "... is already in ..."
    | Added
    | AlreadyOut   // "... is already not in ..."
    | Removed

  /** obj.get(field, []), and obj.get(field) or FrozenList(): the list, empty when absent. */
  function Ids(obj: Record, field: string): seq<string>
  {
    if field in obj then obj[field] else []
  }

  /** filter(lambda i: i != id, xs) */
  function Without(xs: seq<string>, id: string): (r: seq<string>)
    ensures |r| <= |xs|
  {
    if xs == [] then [] else (if xs[0] == id then [] else [xs[0]]) + Without(xs[1..], id)
  }

  /** Filtering drops every occurrence of id and keeps every other element as often as before. */
  lemma {:induction false} WithoutCount(xs: seq<string>, id: string, x: string)
    ensures multiset(Without(xs, id))[x] == if x == id then 0 else multiset(xs)[x]
  {
    if xs != [] {
      var h, t := xs[0], xs[1..];
      WithoutCount(t, id, x);
      var hw := if h == id then [] else [h];
      assert multiset(Without(xs, id)) == multiset(hw) + multiset(Without(t, id));
      assert multiset(xs) == multiset{h} + multiset(t) by {
        assert xs == [h] + t;
      }
    }
  }

  /** Filtering keeps the order: it distributes over concatenation. */
  lemma {:induction false} WithoutAppend(a: seq<string>, b: seq<string>, id: string)
    ensures Without(a + b, id) == Without(a, id) + Without(b, id)
  {
    if a == [] {
      assert a + b == b;
    } else {
      assert (a + b)[0] == a[0] && (a + b)[1..] == a[1..] + b;
      WithoutAppend(a[1..], b, id);
      var h := if a[0] == id then [] else [a[0]];
      assert h + (Without(a[1..], id) + Without(b, id)) == (h + Without(a[1..], id)) + Without(b, id);
    }
  }

  /** Filtering out an id that is absent changes nothing. */
  lemma {:induction false} WithoutAbsent(xs: seq<string>, id: string)
    requires id !in xs
    ensures Without(xs, id) == xs
  {
    if xs != [] {
      WithoutAbsent(xs[1..], id);
    }
  }

  /** priv_new, loc_new: a fresh record of empty lists, only when the name is unused. */
  function NewResult(conf: Conf, name: string, fields: seq<string>): (Conf, Reply)
  {
    if name in conf then (conf, Exists)
    else (conf[name := map f | f in fields :: []], Created)
  }

  /** priv_delete, loc_delete: storing None removes the record, only when it exists. */
  function DeleteResult(conf: Conf, name: string): (Conf, Reply)
  {
    if name !in conf then (conf, Missing) else (conf - {name}, Deleted)
  }

  /** The add subcommand: a missing record, an id already listed, or an append. */
  function AddResult(conf: Conf, name: string, field: string, id: string): (Conf, Reply)
  {
    if name !in conf then (conf, Missing)
    else if id in Ids(conf[name], field) then (conf, AlreadyIn)
    else (conf[name := conf[name][field := Ids(conf[name], field) + [id]]], Added)
  }

  /** The remove subcommand: a missing record, an id not listed, or a filter. */
  function RemoveResult(conf: Conf, name: string, field: string, id: string): (Conf, Reply)
  {
    if name !in conf then (conf, Missing)
    else if id !in Ids(conf[name], field) then (conf, AlreadyOut)
    else (conf[name := conf[name][field := Without(Ids(conf[name], field), id)]], Removed)
  }

  /** A new record lists nothing; an existing one is left alone. */
  lemma NewEffect(conf: Conf, name: string, fields: seq<string>, field: string)
    ensures var (c, reply) := NewResult(conf, name, fields);
      (reply == Created <==> name !in conf)
      && name in c && (reply == Exists ==> c == conf)
      && (reply == Created ==> Ids(c[name], field) == [] && (field in c[name] <==> field in fields))
      && forall n :: n != name ==> (n in c <==> n in conf) && (n in c ==> c[n] == conf[n])
  {
  }

  /** After a delete the name is gone, and nothing else changed. */
  lemma DeleteEffect(conf: Conf, name: string)
    ensures var (c, reply) := DeleteResult(conf, name);
      (reply == Deleted <==> name in conf) && name !in c
      && forall n :: n != name ==> (n in c <==> n in conf) && (n in c ==> c[n] == conf[n])
  {
  }

  /** Creating a record and deleting it again restores the configuration. */
  lemma NewThenDelete(conf: Conf, name: string, fields: seq<string>)
    requires name !in conf
    ensures DeleteResult(NewResult(conf, name, fields).0, name) == (conf, Deleted)
  {
    assert NewResult(conf, name, fields).0 - {name} == conf;
  }

  /**
   * After an add the id is listed; it was appended at the end exactly when
   * it was absent, and every other field and record is unchanged.
   */
  lemma AddEffect(conf: Conf, name: string, field: string, id: string)
    requires name in conf
    ensures var (c, reply) := AddResult(conf, name, field, id);
      name in c && id in Ids(c[name], field)
      && (reply == Added <==> id !in Ids(conf[name], field))
      && (reply == Added ==> Ids(c[name], field) == Ids(conf[name], field) + [id])
      && (reply == AlreadyIn ==> c == conf)
      && (forall f :: f != field ==> (f in c[name] <==> f in conf[name]) && Ids(c[name], f) == Ids(conf[name], f))
      && forall n :: n != name ==> (n in c <==> n in conf) && (n in c ==> c[n] == conf[n])
  {
  }

  /**
   * After a remove the id is listed nowhere in that field; every other id
   * keeps its count, and every other field and record is unchanged.
   */
  lemma RemoveEffect(conf: Conf, name: string, field: string, id: string)
    requires name in conf
    ensures var (c, reply) := RemoveResult(conf, name, field, id);
      name in c && id !in Ids(c[name], field)
      && (reply == Removed <==> id in Ids(conf[name], field))
      && (reply == AlreadyOut ==> c == conf)
      && (forall x :: x != id ==> multiset(Ids(c[name], field))[x] == multiset(Ids(conf[name], field))[x])
      && (forall f :: f != field ==> (f in c[name] <==> f in conf[name]) && Ids(c[name], f) == Ids(conf[name], f))
      && forall n :: n != name ==> (n in c <==> n in conf) && (n in c ==> c[n] == conf[n])
  {
    var xs := Ids(conf[name], field);
    WithoutCount(xs, id, id);
    forall x | x != id
      ensures multiset(Without(xs, id))[x] == multiset(xs)[x]
    {
      WithoutCount(xs, id, x);
    }
  }

  /** Adding an absent id and removing it again gives back the same list. */
  lemma AddThenRemove(conf: Conf, name: string, field: string, id: string)
    requires name in conf && id !in Ids(conf[name], field)
    ensures var c := RemoveResult(AddResult(conf, name, field, id).0, name, field, id).0;
      name in c && Ids(c[name], field) == Ids(conf[name], field)
  {
    var xs := Ids(conf[name], field);
    WithoutAppend(xs, [id], id);
    WithoutAbsent(xs, id);
    assert Without([id], id) == [];
  }

  /** The state every command of one plugin edits. */
  class Registry {
    var entries: Conf

    constructor (entries: Conf)
      ensures this.entries == entries
    {
      this.entries := entries;
    }

    method New(name: string, fields: seq<string>) returns (reply: Reply)
      modifies this
      ensures (entries, reply) == NewResult(old(entries), name, fields)
    {
      if name in entries {
        return Exists;
      }
      entries := entries[name := map f | f in fields :: []];
      reply := Created;
    }

    method Delete(name: string) returns (reply: Reply)
      modifies this
      ensures (entries, reply) == DeleteResult(old(entries), name)
    {
      if name !in entries {
        return Missing;
      }
      entries := entries - {name};
      reply := Deleted;
    }

    method Add(name: string, field: string, id: string) returns (reply: Reply)
      modifies this
      ensures (entries, reply) == AddResult(old(entries), name, field, id)
    {
      if name !in entries {
        return Missing;
      }
      var obj := entries[name];
      if id in Ids(obj, field) {
        return AlreadyIn;
      }
      entries := entries[name := obj[field := Ids(obj, field) + [id]]];
      reply := Added;
    }

    method Remove(name: string, field: string, id: string) returns (reply: Reply)
      modifies this
      ensures (entries, reply) == RemoveResult(old(entries), name, field, id)
    {
      if name !in entries {
        return Missing;
      }
      var obj := entries[name];
      if id !in Ids(obj, field) {
        return AlreadyOut;
      }
      entries := entries[name := obj[field := Without(Ids(obj, field), id)]];
      reply := Removed;
    }
  }
}
