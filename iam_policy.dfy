/** The IAM policy document of a project and the specification of how the
    setup wizard merges role grants for one identity into it. */
module IamPolicy {
  import opened Wrappers

  /** One entry of the policy's "bindings" list: a role and its members. */
  datatype Binding = Binding(role: string, members: seq<string>)

  /** The policy document as fetched with getIamPolicy. `bindings` is None
      when the document has no "bindings" key at all. The etag and version
      stand for the document's other top-level keys, which the merge passes
      through to the write-back untouched. */
  datatype Policy = Policy(bindings: Option<seq<Binding>>, etag: string, version: int)

  /** The merge raises when it must append a binding to a document that has
      no "bindings" key; the role it was adding is recorded. */
  datatype GrantError = MissingBindingsKey(role: string)

  /** The identity types the wizard's form offers. */
  const IdentityTypes: seq<string> := ["user", "serviceAccount"]

  // ---------------------------------------------------------------------
  // Member strings "type:email"
  // ---------------------------------------------------------------------

  /** The IAM member string for an identity. */
  function Member(identityType: string, identityEmail: string): (m: string)
    ensures |m| == |identityType| + 1 + |identityEmail| && m[|identityType|] == ':'
    ensures m[..|identityType|] == identityType && m[|identityType| + 1..] == identityEmail
  {
    identityType + ":" + identityEmail
  }

  /** Position of the first ':' in `m`, if any. */
  function ColonIndex(m: string): (r: Option<nat>)
    ensures r.Some? ==> r.value < |m| && m[r.value] == ':' && ':' !in m[..r.value]
    ensures r.None? ==> ':' !in m
  {
    if |m| == 0 then None
    else if m[0] == ':' then Some(0)
    else match ColonIndex(m[1..])
      case None => None
      case Some(i) =>
        assert m[..i + 1] == [m[0]] + m[1..][..i];
        Some(i + 1)
  }

  /** Splits a member string at its first ':' into identity type and email. */
  function ParseMember(m: string): Option<(string, string)> {
    match ColonIndex(m)
    case None => None
    case Some(i) => Some((m[..i], m[i + 1..]))
  }

  /** A member string built from an identity type without ':' splits back
      into that type and email. */
  lemma MemberRoundTrip(identityType: string, identityEmail: string)
    requires ':' !in identityType
    ensures ParseMember(Member(identityType, identityEmail)) == Some((identityType, identityEmail))
  {
  }

  /** Two identities of the selectable types never share a member string,
      so granting to one never looks like a grant to the other. */
  lemma MemberInjective(t1: string, e1: string, t2: string, e2: string)
    requires t1 in IdentityTypes && t2 in IdentityTypes
    requires Member(t1, e1) == Member(t2, e2)
    ensures t1 == t2 && e1 == e2
  {
  }

  // ---------------------------------------------------------------------
  // Scanning the bindings
  // ---------------------------------------------------------------------

  /** Index of the first binding whose role is `role` (the scan with `break`). */
  function FirstWithRole(bs: seq<Binding>, role: string): (r: Option<nat>)
    ensures r.Some? ==> r.value < |bs| && bs[r.value].role == role
    ensures r.Some? ==> forall j :: 0 <= j < r.value ==> bs[j].role != role
    ensures r.None? ==> forall j :: 0 <= j < |bs| ==> bs[j].role != role
  {
    if |bs| == 0 then None
    else if bs[0].role == role then Some(0)
    else match FirstWithRole(bs[1..], role)
      case None => None
      case Some(i) => Some(i + 1)
  }

  /** The first binding for `role` exists and lists `member`. */
  predicate Granted(bs: seq<Binding>, role: string, member: string) {
    match FirstWithRole(bs, role)
    case Some(i) => member in bs[i].members
    case None => false
  }

  /** `b` keeps every binding of `a` at its position with the same role, and
      each keeps its old members as a prefix: nothing is removed or moved. */
  predicate Extends(a: seq<Binding>, b: seq<Binding>) {
    |a| <= |b| &&
    forall j :: 0 <= j < |a| ==> b[j].role == a[j].role && a[j].members <= b[j].members
  }

  /** No member is listed twice in any binding. */
  predicate MembersUnique(bs: seq<Binding>) {
    forall j, p, q :: 0 <= j < |bs| && 0 <= p < q < |bs[j].members| ==>
      bs[j].members[p] != bs[j].members[q]
  }

  /** At most one binding per role. */
  predicate RolesUnique(bs: seq<Binding>) {
    forall p, q :: 0 <= p < q < |bs| ==> bs[p].role != bs[q].role
  }

  /** Extending keeps the first binding of every role already present. */
  lemma FirstWithRoleStable(a: seq<Binding>, b: seq<Binding>, role: string)
    requires Extends(a, b)
    requires FirstWithRole(a, role).Some?
    ensures FirstWithRole(b, role) == FirstWithRole(a, role)
  {
  }

  /** A forward scan that stops at the first match finds FirstWithRole. */
  lemma FirstWithRoleAt(bs: seq<Binding>, role: string, j: nat)
    requires j < |bs| && bs[j].role == role
    requires forall t :: 0 <= t < j ==> bs[t].role != role
    ensures FirstWithRole(bs, role) == Some(j)
  {
  }

  // ---------------------------------------------------------------------
  // The merge
  // ---------------------------------------------------------------------

  /** `member` added to a binding unless already present. */
  function AddMember(b: Binding, member: string): (r: Binding)
    ensures r.role == b.role && member in r.members
    ensures b.members <= r.members && |r.members| <= |b.members| + 1
    ensures member in b.members ==> r == b
  {
    if member in b.members then b else Binding(b.role, b.members + [member])
  }

  /** One requested role: add the member to the first binding for the role,
      or append a new binding holding only the member. */
  function GrantRole(bs: seq<Binding>, role: string, member: string): (r: seq<Binding>)
    ensures Extends(bs, r) && Granted(r, role, member)
    ensures |r| == if FirstWithRole(bs, role).Some? then |bs| else |bs| + 1
    ensures forall j :: 0 <= j < |bs| && FirstWithRole(bs, role) != Some(j) ==> r[j] == bs[j]
  {
    match FirstWithRole(bs, role)
    case Some(i) =>
      var r := bs[i := AddMember(bs[i], member)];
      FirstWithRoleStable(bs, r, role);
      r
    case None =>
      var r := bs + [Binding(role, [member])];
      assert FirstWithRole(r, role) == Some(|bs|) by {
        assert r[|bs|].role == role;
        var f := FirstWithRole(r, role);
        if f.None? || f.value < |bs| { assert false; }
      }
      r
  }

  /** Applying one more role of the list extends the merge by one step. */
  lemma GrantRolesStep(bs: seq<Binding>, roles: seq<string>, member: string, k: nat)
    requires k < |roles|
    ensures GrantRoles(bs, roles[..k + 1], member) == GrantRole(GrantRoles(bs, roles[..k], member), roles[k], member)
  {
    assert roles[..k + 1][..k] == roles[..k];
  }

  /** All requested roles, in order (the last one is applied last). */
  function GrantRoles(bs: seq<Binding>, roles: seq<string>, member: string): (r: seq<Binding>)
    ensures Extends(bs, r)
    decreases |roles|
  {
    if roles == [] then bs
    else GrantRole(GrantRoles(bs, roles[..|roles| - 1], member), roles[|roles| - 1], member)
  }

  /** The whole merge on a fetched policy: the document to write back, or
      the failure raised when a binding must be appended but the document
      has no "bindings" list. */
  function Grant(p: Policy, roles: seq<string>, member: string): (r: Result<Policy, GrantError>)
    ensures r.Err? <==> p.bindings.None? && roles != []
    ensures r.Err? ==> r.error == MissingBindingsKey(roles[0])
    ensures r.Ok? ==> r.value.etag == p.etag && r.value.version == p.version
    ensures r.Ok? ==> (r.value.bindings.Some? <==> p.bindings.Some?)
    ensures r.Ok? && p.bindings.Some? ==> Extends(p.bindings.value, r.value.bindings.value)
  {
    match p.bindings
    case None => if roles == [] then Ok(p) else Err(MissingBindingsKey(roles[0]))
    case Some(bs) => Ok(p.(bindings := Some(GrantRoles(bs, roles, member))))
  }

  // ---------------------------------------------------------------------
  // One role
  // ---------------------------------------------------------------------

  /** An absent member is appended at the end of the first binding for the
      role; earlier members keep their places and no binding is added. */
  lemma GrantRoleAppendsMember(bs: seq<Binding>, role: string, member: string, i: nat)
    requires FirstWithRole(bs, role) == Some(i)
    requires member !in bs[i].members
    ensures GrantRole(bs, role, member) == bs[i := Binding(role, bs[i].members + [member])]
  {
  }

  /** A member already present in the first binding for the role: the whole
      list of bindings is left as it was. */
  lemma GrantRoleKeepsPresentMember(bs: seq<Binding>, role: string, member: string)
    requires Granted(bs, role, member)
    ensures GrantRole(bs, role, member) == bs
  {
  }

  /** A role no binding carries: exactly one binding {role, [member]} is
      appended after all existing ones. */
  lemma GrantRoleAppendsBinding(bs: seq<Binding>, role: string, member: string)
    requires forall j :: 0 <= j < |bs| ==> bs[j].role != role
    ensures GrantRole(bs, role, member) == bs + [Binding(role, [member])]
  {
  }

  /** Granting one role leaves every other role's grants in force. */
  lemma GrantRoleKeepsGranted(bs: seq<Binding>, role: string, other: string, member: string)
    requires Granted(bs, other, member)
    ensures Granted(GrantRole(bs, role, member), other, member)
  {
  }

  // ---------------------------------------------------------------------
  // All roles
  // ---------------------------------------------------------------------

  /** After the merge every requested role's first binding lists the member. */
  lemma {:induction false} GrantRolesCovers(bs: seq<Binding>, roles: seq<string>, member: string)
    ensures forall role :: role in roles ==> Granted(GrantRoles(bs, roles, member), role, member)
    decreases |roles|
  {
    if roles != [] {
      var init := roles[..|roles| - 1];
      var last := roles[|roles| - 1];
      var mid := GrantRoles(bs, init, member);
      GrantRolesCovers(bs, init, member);
      forall role | role in roles
        ensures Granted(GrantRole(mid, last, member), role, member)
      {
        if role != last {
          assert role in init by { assert roles == init + [last]; }
          GrantRoleKeepsGranted(mid, last, role, member);
        }
      }
    }
  }

  /** Roles already granted to the member: the merge changes nothing. */
  lemma {:induction false} GrantRolesNoOp(bs: seq<Binding>, roles: seq<string>, member: string)
    requires forall role :: role in roles ==> Granted(bs, role, member)
    ensures GrantRoles(bs, roles, member) == bs
    decreases |roles|
  {
    if roles != [] {
      var init := roles[..|roles| - 1];
      var last := roles[|roles| - 1];
      assert forall role :: role in init ==> role in roles;
      GrantRolesNoOp(bs, init, member);
      GrantRoleKeepsPresentMember(bs, last, member);
    }
  }

  /** Bindings for roles that were not requested come through unchanged, at
      their original positions. */
  lemma {:induction false} GrantRolesKeepsUnrequested(bs: seq<Binding>, roles: seq<string>, member: string)
    ensures forall j :: 0 <= j < |bs| && bs[j].role !in roles ==> GrantRoles(bs, roles, member)[j] == bs[j]
    decreases |roles|
  {
    if roles != [] {
      var init := roles[..|roles| - 1];
      var last := roles[|roles| - 1];
      var mid := GrantRoles(bs, init, member);
      GrantRolesKeepsUnrequested(bs, init, member);
      forall j | 0 <= j < |bs| && bs[j].role !in roles
        ensures GrantRole(mid, last, member)[j] == bs[j]
      {
        assert bs[j].role !in init by { assert roles == init + [last]; }
        assert mid[j].role != last;
      }
    }
  }

  /** Only the first binding of a role is ever touched: any later binding
      with the same role comes through unchanged. */
  lemma {:induction false} GrantRolesKeepsLaterDuplicates(bs: seq<Binding>, roles: seq<string>, member: string)
    ensures forall j :: 0 <= j < |bs| && FirstWithRole(bs, bs[j].role) != Some(j) ==>
      GrantRoles(bs, roles, member)[j] == bs[j]
    decreases |roles|
  {
    if roles != [] {
      var init := roles[..|roles| - 1];
      var last := roles[|roles| - 1];
      var mid := GrantRoles(bs, init, member);
      GrantRolesKeepsLaterDuplicates(bs, init, member);
      forall j | 0 <= j < |bs| && FirstWithRole(bs, bs[j].role) != Some(j)
        ensures GrantRole(mid, last, member)[j] == bs[j]
      {
        if mid[j].role == last {
          FirstWithRoleStable(bs, mid, last);
        }
      }
    }
  }

  /** Every binding past the original ones was appended for a requested role
      that no original binding carried, and lists only the member. */
  lemma {:induction false} GrantRolesAppendsOnlyNewRoles(bs: seq<Binding>, roles: seq<string>, member: string)
    ensures forall k :: |bs| <= k < |GrantRoles(bs, roles, member)| ==>
      var b := GrantRoles(bs, roles, member)[k];
      b.members == [member] && b.role in roles && FirstWithRole(bs, b.role).None?
    decreases |roles|
  {
    if roles != [] {
      var init := roles[..|roles| - 1];
      var last := roles[|roles| - 1];
      var mid := GrantRoles(bs, init, member);
      var r := GrantRole(mid, last, member);
      GrantRolesAppendsOnlyNewRoles(bs, init, member);
      assert roles == init + [last];
      forall k | |bs| <= k < |r|
        ensures r[k].members == [member] && r[k].role in roles && FirstWithRole(bs, r[k].role).None?
      {
        if k < |mid| {
          if FirstWithRole(mid, last) == Some(k) {
            assert member in mid[k].members;
          }
        } else {
          if FirstWithRole(bs, last).Some? {
            FirstWithRoleStable(bs, mid, last);
            assert false;
          }
        }
      }
    }
  }

  /** A document without repeated members keeps that property. */
  lemma {:induction false} GrantRolesKeepsMembersUnique(bs: seq<Binding>, roles: seq<string>, member: string)
    requires MembersUnique(bs)
    ensures MembersUnique(GrantRoles(bs, roles, member))
    decreases |roles|
  {
    if roles != [] {
      var init := roles[..|roles| - 1];
      var last := roles[|roles| - 1];
      var mid := GrantRoles(bs, init, member);
      GrantRolesKeepsMembersUnique(bs, init, member);
      var r := GrantRole(mid, last, member);
      forall j | 0 <= j < |r|
        ensures forall p, q :: 0 <= p < q < |r[j].members| ==> r[j].members[p] != r[j].members[q]
      {
        if j < |mid| && FirstWithRole(mid, last) == Some(j) && member !in mid[j].members {
          assert r[j].members == mid[j].members + [member];
        }
      }
    }
  }

  /** A document with at most one binding per role keeps that property. */
  lemma {:induction false} GrantRolesKeepsRolesUnique(bs: seq<Binding>, roles: seq<string>, member: string)
    requires RolesUnique(bs)
    ensures RolesUnique(GrantRoles(bs, roles, member))
    decreases |roles|
  {
    if roles != [] {
      var init := roles[..|roles| - 1];
      GrantRolesKeepsRolesUnique(bs, init, member);
    }
  }

  // ---------------------------------------------------------------------
  // The written-back policy
  // ---------------------------------------------------------------------

  /** After a successful merge every requested role is granted to the member. */
  lemma GrantCovers(p: Policy, roles: seq<string>, member: string)
    requires Grant(p, roles, member).Ok?
    ensures forall role :: role in roles ==>
      var q := Grant(p, roles, member).value;
      q.bindings.Some? && Granted(q.bindings.value, role, member)
  {
    if p.bindings.Some? {
      GrantRolesCovers(p.bindings.value, roles, member);
    }
  }

  /** Running the merge again on its own output writes the same document. */
  lemma GrantIdempotent(p: Policy, roles: seq<string>, member: string)
    requires Grant(p, roles, member).Ok?
    ensures Grant(Grant(p, roles, member).value, roles, member) == Grant(p, roles, member)
  {
    if p.bindings.Some? {
      var bs := GrantRoles(p.bindings.value, roles, member);
      GrantRolesCovers(p.bindings.value, roles, member);
      GrantRolesNoOp(bs, roles, member);
    }
  }

  /** A worked example: a viewer binding for user:a@x.com, granting viewer
      to user:b@x.com appends b after a and adds no binding. */
  lemma ViewerExample()
    ensures var p := Policy(Some([Binding("roles/viewer", ["user:a@x.com"])]), "e", 1);
      Grant(p, ["roles/viewer"], Member("user", "b@x.com"))
        == Ok(Policy(Some([Binding("roles/viewer", ["user:a@x.com", "user:b@x.com"])]), "e", 1))
  {
    var bs := [Binding("roles/viewer", ["user:a@x.com"])];
    var roles := ["roles/viewer"];
    assert roles[..0] == [];
    assert FirstWithRole(bs, "roles/viewer") == Some(0);
    assert Member("user", "b@x.com") == "user:b@x.com";
    assert "user:b@x.com" !in ["user:a@x.com"] by { assert "user:b@x.com"[5] != "user:a@x.com"[5]; }
    assert GrantRoles(bs, roles, "user:b@x.com") == GrantRole(bs, "roles/viewer", "user:b@x.com");
    var added := Binding("roles/viewer", ["user:a@x.com", "user:b@x.com"]);
    assert AddMember(bs[0], "user:b@x.com") == added by {
      assert ["user:a@x.com"] + ["user:b@x.com"] == ["user:a@x.com", "user:b@x.com"];
    }
    assert bs[0 := added] == [added];
    assert GrantRole(bs, "roles/viewer", "user:b@x.com") == [Binding("roles/viewer", ["user:a@x.com", "user:b@x.com"])];
  }
}
