/**
 * plugins/roleoverride.py: some roles mask others. The configuration maps
 * the id of a masking role to the ids of the roles it masks; whenever a
 * member is updated, every role of the member masked by a configured role
 * the member holds is taken away (a role may mask itself).
 */
module RoleOverride {
  import opened Wrappers
  import opened Text

  /** Masking role id to the ids of the roles it masks, all as strings. */
  type Conf = map<string, seq<string>>

  /** Role k is a configured masking role and masks role r. */
  predicate MasksBy(conf: Conf, k: nat, r: nat)
  {
    NatToString(k) in conf && NatToString(r) in conf[NatToString(k)]
  }

  /** The member's roles masked by one of the roles in masking. */
  function MaskedBy(conf: Conf, masking: seq<nat>, roles: seq<nat>): set<nat>
  {
    set r | r in roles && exists k :: k in masking && MasksBy(conf, k, r)
  }

  /** The roles taken away from a member holding roles. */
  function Removed(conf: Conf, roles: seq<nat>): set<nat>
  {
    MaskedBy(conf, roles, roles)
  }

  /** The nested loop of on_member_update. */
  method RemovedRoles(conf: Conf, roles: seq<nat>) returns (removed: set<nat>)
    ensures removed == Removed(conf, roles)
  {
    removed := {};
    for i := 0 to |roles|
      invariant removed == MaskedBy(conf, roles[..i], roles)
    {
      var key := NatToString(roles[i]);
      if key in conf {
        var masked := conf[key];
        ghost var before := removed;
        for j := 0 to |roles|
          invariant removed == before + set r | r in roles[..j] && MasksBy(conf, roles[i], r)
        {
          if NatToString(roles[j]) in masked {
            removed := removed + {roles[j]};
          }
          assert roles[..j + 1] == roles[..j] + [roles[j]];
        }
        assert roles[..|roles|] == roles;
      }
      assert roles[..i + 1] == roles[..i] + [roles[i]];
    }
    assert roles[..|roles|] == roles;
  }

  /** on_member_update: remove_roles is called, with the removed roles, only when there are any. */
  method OnMemberUpdate(conf: Conf, roles: seq<nat>) returns (call: Option<set<nat>>)
    ensures call.Some? <==> Removed(conf, roles) != {}
    ensures call.Some? ==> call.value == Removed(conf, roles)
  {
    var removed := RemovedRoles(conf, roles);
    if |removed| > 0 {
      call := Some(removed);
    } else {
      call := None;
    }
  }

  /** Only roles the member holds are taken away, each masked by a configured role the member holds. */
  lemma RemovedAreHeld(conf: Conf, roles: seq<nat>, r: nat)
    requires r in Removed(conf, roles)
    ensures r in roles
    ensures exists k :: k in roles && NatToString(k) in conf && NatToString(r) in conf[NatToString(k)]
  {
  }

  /** A role the member holds is taken away exactly when a held role masks it. */
  lemma RemovedExactly(conf: Conf, roles: seq<nat>, r: nat, k: nat)
    requires r in roles && k in roles && MasksBy(conf, k, r)
    ensures r in Removed(conf, roles)
  {
  }

  /** A member none of whose roles is a masking role loses nothing. */
  lemma NoMaskingRoleRemovesNothing(conf: Conf, roles: seq<nat>)
    requires forall i :: 0 <= i < |roles| ==> NatToString(roles[i]) !in conf
    ensures Removed(conf, roles) == {}
  {
  }
}
