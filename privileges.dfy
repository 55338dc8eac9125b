/**
 * plugins/privileges.py: who holds a privilege. A privilege record lists
 * user ids under "users" and role ids under "roles"; a member holds it when
 * their own id or the id of one of their roles is listed. Commands guarded
 * by a privilege run only for those who hold it.
 */
module Privileges {
  import opened Wrappers
  import opened Text
  import opened IdLists

  /** The message author: a guild member has roles, a user outside a guild has none. */
  datatype Author = Author(id: int, roles: Option<seq<int>>)

  /** The fields of a privilege record. */
  const Fields: seq<string> := ["users", "roles"]

  /** Some role of the author is listed in the record. */
  predicate HasListedRole(obj: Record, a: Author)
  {
    a.roles.Some? && exists i :: 0 <= i < |a.roles.value| && IntToString(a.roles.value[i]) in Ids(obj, "roles")
  }

  /** The privilege exists and lists the author or one of the author's roles. */
  predicate Privileged(conf: Conf, priv: string, a: Author)
  {
    priv in conf && (IntToString(a.id) in Ids(conf[priv], "users") || HasListedRole(conf[priv], a))
  }

  /** has_privilege */
  method HasPrivilege(conf: Conf, priv: string, a: Author) returns (b: bool)
    ensures b <==> Privileged(conf, priv, a)
  {
    if priv !in conf {
      return false;
    }
    var obj := conf[priv];
    if IntToString(a.id) in Ids(obj, "users") {
      return true;
    }
    if a.roles.Some? {
      var roles := a.roles.value;
      for i := 0 to |roles|
        invariant forall j :: 0 <= j < i ==> IntToString(roles[j]) !in Ids(obj, "roles")
      {
        if IntToString(roles[i]) in Ids(obj, "roles") {
          return true;
        }
      }
    }
    return false;
  }

  /** What the priv decorator does with a call. */
  datatype Gate = Run | Denied(log: string)

  /** The check of the priv decorator: run the command, or log the denial. */
  method Check(conf: Conf, priv: string, a: Author, command: string, authorRepr: string) returns (g: Gate)
    ensures g == Run <==> Privileged(conf, priv, a)
    ensures g.Denied? ==> g.log == "Denied " + command + " to " + authorRepr
  {
    var ok := HasPrivilege(conf, priv, a);
    if ok {
      g := Run;
    } else {
      g := Denied("Denied " + command + " to " + authorRepr);
    }
  }

  /** A user outside a guild holds a privilege only through the users list. */
  lemma NoRolesOutsideGuild(conf: Conf, priv: string, a: Author)
    requires a.roles.None?
    ensures Privileged(conf, priv, a) <==> priv in conf && IntToString(a.id) in Ids(conf[priv], "users")
  {
  }

  /** Nobody holds a privilege that was just created, or one that was just deleted. */
  lemma NewAndDeletedGrantNothing(conf: Conf, priv: string, a: Author)
    ensures priv !in conf ==> !Privileged(NewResult(conf, priv, Fields).0, priv, a)
    ensures !Privileged(DeleteResult(conf, priv).0, priv, a)
  {
    NewEffect(conf, priv, Fields, "users");
    NewEffect(conf, priv, Fields, "roles");
  }

  /** priv add user: the added user holds the privilege afterwards. */
  lemma AddUserGrants(conf: Conf, priv: string, a: Author)
    requires priv in conf
    ensures Privileged(AddResult(conf, priv, "users", IntToString(a.id)).0, priv, a)
  {
    AddEffect(conf, priv, "users", IntToString(a.id));
  }

  /** priv add role: every member with that role holds the privilege afterwards. */
  lemma AddRoleGrants(conf: Conf, priv: string, role: int, a: Author)
    requires priv in conf && a.roles.Some? && role in a.roles.value
    ensures Privileged(AddResult(conf, priv, "roles", IntToString(role)).0, priv, a)
  {
    AddEffect(conf, priv, "roles", IntToString(role));
    var i :| 0 <= i < |a.roles.value| && a.roles.value[i] == role;
  }

  /** priv remove user: afterwards the user holds the privilege only through a role. */
  lemma RemoveUserRevokes(conf: Conf, priv: string, a: Author)
    requires priv in conf
    ensures var c := RemoveResult(conf, priv, "users", IntToString(a.id)).0;
      Privileged(c, priv, a) <==> HasListedRole(conf[priv], a)
  {
    RemoveEffect(conf, priv, "users", IntToString(a.id));
  }

  /** priv remove role: afterwards no role with that id counts, and users listed directly keep the privilege. */
  lemma RemoveRoleRevokes(conf: Conf, priv: string, role: int, a: Author)
    requires priv in conf
    ensures var c := RemoveResult(conf, priv, "roles", IntToString(role)).0;
      priv in c && IntToString(role) !in Ids(c[priv], "roles")
      && Ids(c[priv], "users") == Ids(conf[priv], "users")
  {
    RemoveEffect(conf, priv, "roles", IntToString(role));
  }
}
