// What single attribute values grant, written out: "<value>@<scope>", the
// location's group, the one across all locations, and the role a value maps to
// (internal/keycloak/mapping.go:112-220).
module Claims {
  import opened Wrappers
  import opened Text
  import opened Tokens
  import opened Tuples
  import opened Keycloak

  /** The value says this of this scope. */
  predicate IsClaim(raw: string, value: string, scope: string) {
    NormalizeId(raw) == value + "@" + scope && '@' !in value && scope != ""
  }

  lemma ClaimRead(raw: string, value: string, scope: string)
    ensures IsClaim(raw, value, scope) <==> Claim(raw) == Some((value, scope))
  {
    var id := NormalizeId(raw);
    if IsClaim(raw, value, scope) {
      assert id[|value|] == '@';
      forall j | 0 <= j < |value| ensures id[j] != '@' {
        assert id[j] in value;
      }
      assert Find(id, '@') == |value| && id[..|value|] == value && id[|value| + 1..] == scope;
    }
    if Claim(raw) == Some((value, scope)) {
      var at := Find(id, '@');
      assert id == id[..at] + "@" + id[at + 1..];
    }
  }

  /** The scope is a location's, and the group is its group or the one across all locations. */
  predicate LeadsTo(m: Mapping, scope: string, group: string) {
    scope in m.locations && (m.locations[scope] == group || m.allGroup == Some(group))
  }

  /** One of the values is about a scope that leads to the group. */
  ghost predicate Joins(m: Mapping, values: set<string>, group: string) {
    exists raw, value, scope :: raw in values && IsClaim(raw, value, scope) && LeadsTo(m, scope, group)
  }

  /** One of them maps to the role as well. */
  ghost predicate Earns(m: Mapping, values: set<string>, group: string, role: string) {
    role != ""
    && exists raw, value, scope ::
         raw in values && IsClaim(raw, value, scope) && LeadsTo(m, scope, group)
         && value in m.roles && m.roles[value] == role
  }

  lemma JoinsIff(m: Mapping, values: set<string>, group: string)
    ensures Joins(m, values, group) <==> group in AllGroups(m, values)
  {
    if Joins(m, values, group) {
      var raw, value, scope :| raw in values && IsClaim(raw, value, scope) && LeadsTo(m, scope, group);
      ClaimRead(raw, value, scope);
      assert group in Keycloak.GroupsOf(m, raw);
    }
    if group in AllGroups(m, values) {
      var raw :| raw in values && group in Keycloak.GroupsOf(m, raw);
      ClaimRead(raw, Claim(raw).value.0, Claim(raw).value.1);
      assert LeadsTo(m, Claim(raw).value.1, group);
    }
  }

  lemma EarnsIff(m: Mapping, values: set<string>, group: string, role: string)
    ensures Earns(m, values, group, role) <==> role in RolesAt(m, values, group)
  {
    if Earns(m, values, group, role) {
      var raw, value, scope :|
        raw in values && IsClaim(raw, value, scope) && LeadsTo(m, scope, group)
        && value in m.roles && m.roles[value] == role;
      ClaimRead(raw, value, scope);
      assert group in Keycloak.GroupsOf(m, raw) && RoleOf(m, raw) == role;
    }
    if role in RolesAt(m, values, group) {
      var raw :| raw in values && group in Keycloak.GroupsOf(m, raw) && RoleOf(m, raw) != "" && role == RoleOf(m, raw);
      ClaimRead(raw, Claim(raw).value.0, Claim(raw).value.1);
      assert LeadsTo(m, Claim(raw).value.1, group) && Claim(raw).value.0 in m.roles;
    }
  }

  /**
   * The rows of a person: in every group a value leads to, one for each role such a value maps to, or plain membership
   * if there is none; of no other group, and of no other role.
   */
  lemma RowsByClaims(m: Mapping, email: string, values: set<string>, p: TuplePair)
    ensures p in Derived(m, email, values)
            <==> p.kind == User && p.memberId == email
                 && (Earns(m, values, p.groupId, p.relation)
                     || (p.relation == MEMBER && Joins(m, values, p.groupId)
                         && forall role :: !Earns(m, values, p.groupId, role)))
  {
    var g := p.groupId;
    JoinsIff(m, values, g);
    forall role ensures Earns(m, values, g, role) <==> role in RolesAt(m, values, g) {
      EarnsIff(m, values, g, role);
    }
    if p in Derived(m, email, values) {
      assert p.relation in Keycloak.Granted(m, values, g) && g in AllGroups(m, values);
    }
    if Earns(m, values, g, p.relation) {
      EarnedJoins(m, values, g, p.relation);
    }
    if p.kind == User && p.memberId == email && g in AllGroups(m, values)
       && p.relation in Keycloak.Granted(m, values, g) {
      assert p == MemberPair(email, g, p.relation);
    }
  }

  lemma EarnedJoins(m: Mapping, values: set<string>, group: string, role: string)
    requires Earns(m, values, group, role)
    ensures Joins(m, values, group)
  {
  }

  /**
   * A value whose scope leads to a group and that maps to a role makes the role there, and in the group across all
   * locations.
   */
  lemma ClaimGrants(m: Mapping, email: string, values: set<string>, raw: string, value: string, scope: string)
    requires raw in values && IsClaim(raw, value, scope) && scope in m.locations
    requires value in m.roles && m.roles[value] != ""
    ensures TuplePair(m.locations[scope], m.roles[value], User, email) in Derived(m, email, values)
    ensures m.allGroup.Some? ==> TuplePair(m.allGroup.value, m.roles[value], User, email) in Derived(m, email, values)
  {
    var role := m.roles[value];
    assert LeadsTo(m, scope, m.locations[scope]) && Earns(m, values, m.locations[scope], role);
    RowsByClaims(m, email, values, TuplePair(m.locations[scope], role, User, email));
    if m.allGroup.Some? {
      assert LeadsTo(m, scope, m.allGroup.value) && Earns(m, values, m.allGroup.value, role);
      RowsByClaims(m, email, values, TuplePair(m.allGroup.value, role, User, email));
    }
  }
}
