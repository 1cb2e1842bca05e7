/** The merge loop of grant_permissions: for each requested role, scan the
    bindings for the first one with that role and append the member to it,
    or append a new binding. The policy is fetched before and written back
    after; both calls are outside this module, which returns the document to
    write back (or the failure that stops the write-back). */
module PolicyMerge {
  import opened Wrappers
  import opened IamPolicy

  method GrantPermissions(policy: Policy, identityType: string, identityEmail: string, roles: seq<string>)
    returns (result: Result<Policy, GrantError>)
    ensures result == Grant(policy, roles, Member(identityType, identityEmail))
  {
    var member := identityType + ":" + identityEmail;
    // policy.get('bindings', []) for the scan; policy['bindings'] for appends
    var hasBindings := policy.bindings.Some?;
    var bindings := policy.bindings.GetOr([]);
    for k := 0 to |roles|
      invariant hasBindings ==> bindings == GrantRoles(policy.bindings.value, roles[..k], member)
      invariant !hasBindings ==> k == 0 && bindings == []
    {
      var role := roles[k];
      ghost var before := bindings;
      var found := false;
      var j := 0;
      while j < |bindings|
        invariant 0 <= j <= |bindings|
        invariant !found && bindings == before
        invariant forall t :: 0 <= t < j ==> bindings[t].role != role
      {
        if bindings[j].role == role {
          FirstWithRoleAt(before, role, j);
          if member !in bindings[j].members {
            GrantRoleAppendsMember(before, role, member, j);
            bindings := bindings[j := bindings[j].(members := bindings[j].members + [member])];
          } else {
            GrantRoleKeepsPresentMember(before, role, member);
          }
          found := true;
          break;
        }
        j := j + 1;
      }
      if !found {
        if !hasBindings {
          return Err(MissingBindingsKey(role));
        }
        GrantRoleAppendsBinding(before, role, member);
        bindings := bindings + [Binding(role, [member])];
      }
      if hasBindings {
        GrantRolesStep(policy.bindings.value, roles, member, k);
      }
    }
    assert roles[..|roles|] == roles;
    if hasBindings {
      result := Ok(policy.(bindings := Some(bindings)));
    } else {
      result := Ok(policy);
    }
  }
}
