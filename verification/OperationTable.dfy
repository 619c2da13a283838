/** The operations of the API, arranged by path prefix (`packages/client/src/generated.ts`), and why no two of them can
    be taken for each other. */
module OperationTable {
  import opened Routing

  /** The methods that end here, and what may follow. */
  datatype Tree = Node(verbs: set<Method>, edges: seq<Edge>)

  datatype Edge = Edge(segment: Segment, tree: Tree)

  /** An operation is a way through the tree that ends on one of its methods. */
  ghost predicate Lists(t: Tree, verb: Method, segments: seq<Segment>)
    decreases |segments|
  {
    if segments == [] then verb in t.verbs
    else
      exists i :: 0 <= i < |t.edges| && t.edges[i].segment == segments[0] && Lists(t.edges[i].tree, verb, segments[1..])
  }

  /** Letters, digits and `-`: what the literals of the table are made of. The last one of a path may have a colon. */
  predicate LiteralChar(c: char) { 'a' <= c <= 'z' || 'A' <= c <= 'Z' || '0' <= c <= '9' || c == '-' }

  predicate LiteralText(s: string, last: bool) {
    s != "" && forall i :: 0 <= i < |s| ==> LiteralChar(s[i]) || (last && s[i] == ':')
  }

  ghost predicate Words(edges: seq<Edge>) {
    forall i :: 0 <= i < |edges| ==>
      edges[i].segment.Literal? && LiteralText(edges[i].segment.text, edges[i].tree.edges == [])
  }

  ghost predicate Differ(edges: seq<Edge>) {
    forall i, j :: 0 <= i < j < |edges| && edges[i].segment.Literal? && edges[j].segment.Literal? ==>
      edges[i].segment.text != edges[j].segment.text
  }

  /** What follows is one parameter, or literals that differ. */
  ghost predicate Branches(edges: seq<Edge>) {
    (|edges| == 1 && edges[0].segment.Param?) || (Words(edges) && Differ(edges))
  }

  /** No place in the tree lets a path go two ways. */
  ghost predicate Clear(t: Tree) {
    Branches(t.edges) && forall i :: 0 <= i < |t.edges| ==> Clear(t.edges[i].tree)
  }

  const ORGANIZATION_ID_INVITATIONS := Node({POST}, [
    Edge(Param("invitationId"), Node({DELETE}, [Edge(Literal("resend"), Node({POST}, []))]))])

  const MEMBERS_MEMBERSHIP_ID := Node({DELETE, GET}, [
    Edge(Literal("block"), Node({POST}, [])),
    Edge(Literal("roles"), Node({}, [Edge(Param("roleId"), Node({DELETE, PUT}, []))])),
    Edge(Literal("suspend"), Node({POST}, [])),
    Edge(Literal("unblock"), Node({POST}, []))])

  const POLICIES_POLICY_ID := Node({DELETE, GET, PATCH}, [
    Edge(Literal("activate"), Node({POST}, [])),
    Edge(Literal("disable"), Node({POST}, [])),
    Edge(Literal("retire"), Node({POST}, [])),
    Edge(Literal("revisions"), Node({GET}, []))])

  const ROLES_ROLE_ID := Node({DELETE, PATCH}, [
    Edge(Literal("clone"), Node({POST}, [])),
    Edge(Literal("permissions"), Node({GET, PUT}, [Edge(Param("permissionKey"), Node({DELETE, PUT}, []))]))])

  const TEAM_MEMBERSHIPS_TEAM_MEMBERSHIP_ID := Node({DELETE}, [
    Edge(Literal("accept"), Node({POST}, [])),
    Edge(Literal("reactivate"), Node({POST}, [])),
    Edge(Literal("responsibility"), Node({PUT}, [])),
    Edge(Literal("roles"), Node({}, [Edge(Param("roleId"), Node({DELETE, PUT}, []))])),
    Edge(Literal("suspend"), Node({POST}, []))])

  const TEAMS_TEAM_ID := Node({DELETE, GET, PATCH}, [
    Edge(Literal("archive"), Node({POST}, [])),
    Edge(Literal("leave"), Node({POST}, [])),
    Edge(Literal("members"), Node({GET, POST}, [])),
    Edge(Literal("restore"), Node({POST}, []))])

  const ORGANIZATIONS_ORGANIZATION_ID := Node({GET}, [
    Edge(Literal("audit-log"), Node({GET}, [])),
    Edge(Literal("features"), Node({GET}, [])),
    Edge(Literal("invitations"), ORGANIZATION_ID_INVITATIONS),
    Edge(Literal("members"), Node({GET}, [Edge(Param("membershipId"), MEMBERS_MEMBERSHIP_ID)])),
    Edge(Literal("policies"), Node({GET, POST}, [Edge(Param("policyId"), POLICIES_POLICY_ID)])),
    Edge(Literal("policy-simulations"), Node({POST}, [])),
    Edge(Literal("policy-validations"), Node({POST}, [])),
    Edge(Literal("roles"), Node({GET, POST}, [Edge(Param("roleId"), ROLES_ROLE_ID)])),
    Edge(Literal("team-memberships"), Node({}, [Edge(Param("teamMembershipId"), TEAM_MEMBERSHIPS_TEAM_MEMBERSHIP_ID)])),
    Edge(Literal("team-moves"), Node({POST}, [])),
    Edge(Literal("teams"), Node({GET, POST}, [Edge(Param("teamId"), TEAMS_TEAM_ID)]))])

  const MEMBERS_MEMBER_ID := Node({DELETE}, [
    Edge(Literal("reactivate"), Node({POST}, [])),
    Edge(Literal("roles"), Node({}, [Edge(Param("roleId"), Node({DELETE, PUT}, []))])),
    Edge(Literal("suspend"), Node({POST}, []))])

  const V1_PLATFORM := Node({}, [
    Edge(Literal("members"), Node({GET, POST}, [Edge(Param("memberId"), MEMBERS_MEMBER_ID)])),
    Edge(Literal("organizations"), Node({GET}, [Edge(Param("organizationId"),
      Node({}, [Edge(Literal("status"), Node({PUT}, []))]))])),
    Edge(Literal("roles"), Node({GET, POST}, [Edge(Param("roleId"), Node({DELETE, PATCH}, []))])),
    Edge(Literal("support-grants"), Node({POST}, [Edge(Param("grantId"),
      Node({}, [Edge(Literal("revoke"), Node({POST}, []))]))]))])

  const V1_INVITATIONS := Node({}, [
    Edge(Literal("accept"), Node({POST}, [])),
    Edge(Literal("preview"), Node({POST}, []))])

  const V1_ORGANIZATIONS := Node({GET, POST}, [Edge(Param("organizationId"), ORGANIZATIONS_ORGANIZATION_ID)])

  const V1 := Node({}, [
    Edge(Literal("authorize"), Node({POST}, [])),
    Edge(Literal("check"), Node({POST}, [])),
    Edge(Literal("check:batch"), Node({POST}, [])),
    Edge(Literal("features"), Node({GET}, [])),
    Edge(Literal("invitations"), V1_INVITATIONS),
    Edge(Literal("organizations"), V1_ORGANIZATIONS),
    Edge(Literal("permissions"), Node({GET}, [])),
    Edge(Literal("platform"), V1_PLATFORM),
    Edge(Literal("profiles"), Node({PUT}, [])),
    Edge(Literal("snapshots"), Node({POST}, []))])

  const OPERATIONS := Node({}, [Edge(Literal("v1"), V1)])

  lemma OrganizationIdInvitationsClear()
    ensures Clear(ORGANIZATION_ID_INVITATIONS)
  {
  }

  lemma MembersMembershipIdClear()
    ensures Clear(MEMBERS_MEMBERSHIP_ID)
  {
  }

  lemma PoliciesPolicyIdClear()
    ensures Clear(POLICIES_POLICY_ID)
  {
  }

  lemma RolesRoleIdClear()
    ensures Clear(ROLES_ROLE_ID)
  {
  }

  lemma TeamMembershipsTeamMembershipIdWords()
    ensures Words(TEAM_MEMBERSHIPS_TEAM_MEMBERSHIP_ID.edges)
  {
    ActionWords();
    CollectionWords();
  }

  lemma TeamMembershipsTeamMembershipIdDiffer()
    ensures Differ(TEAM_MEMBERSHIPS_TEAM_MEMBERSHIP_ID.edges)
  {
  }

  lemma TeamMembershipsTeamMembershipIdClear()
    ensures Clear(TEAM_MEMBERSHIPS_TEAM_MEMBERSHIP_ID)
  {
    TeamMembershipsTeamMembershipIdWords();
    TeamMembershipsTeamMembershipIdDiffer();
  }

  lemma TeamsTeamIdClear()
    ensures Clear(TEAMS_TEAM_ID)
  {
  }

  lemma LongWords()
    ensures LiteralText("policy-simulations", true) && LiteralText("policy-validations", true)
    ensures LiteralText("team-memberships", false) && LiteralText("audit-log", true) && LiteralText("team-moves", true)
  {
  }

  lemma CollectionWords()
    ensures LiteralText("features", true) && LiteralText("invitations", false) && LiteralText("members", false)
    ensures LiteralText("policies", false) && LiteralText("roles", false) && LiteralText("teams", false)
  {
  }

  lemma ActionWords()
    ensures LiteralText("accept", true) && LiteralText("reactivate", true) && LiteralText("responsibility", true)
    ensures LiteralText("suspend", true)
  {
  }

  lemma OrganizationsOrganizationIdWords()
    ensures Words(ORGANIZATIONS_ORGANIZATION_ID.edges)
  {
    LongWords();
    CollectionWords();
  }

  lemma OrganizationsOrganizationIdDiffer()
    ensures Differ(ORGANIZATIONS_ORGANIZATION_ID.edges)
  {
  }

  lemma OrganizationsOrganizationIdClear()
    ensures Clear(ORGANIZATIONS_ORGANIZATION_ID)
  {
    OrganizationsOrganizationIdWords();
    OrganizationsOrganizationIdDiffer();
    OrganizationIdInvitationsClear();
    MembersMembershipIdClear();
    PoliciesPolicyIdClear();
    RolesRoleIdClear();
    TeamMembershipsTeamMembershipIdClear();
    TeamsTeamIdClear();
  }

  lemma MembersMemberIdClear()
    ensures Clear(MEMBERS_MEMBER_ID)
  {
  }

  lemma V1PlatformWords()
    ensures Words(V1_PLATFORM.edges)
  {
  }

  lemma V1PlatformDiffer()
    ensures Differ(V1_PLATFORM.edges)
  {
  }

  lemma V1PlatformClear()
    ensures Clear(V1_PLATFORM)
  {
    V1PlatformWords();
    V1PlatformDiffer();
    MembersMemberIdClear();
  }

  lemma CheckWords()
    ensures LiteralText("authorize", true) && LiteralText("check", true) && LiteralText("check:batch", true)
  {
  }

  lemma ResourceWords()
    ensures LiteralText("features", true) && LiteralText("permissions", true) && LiteralText("profiles", true)
    ensures LiteralText("snapshots", true)
  {
  }

  lemma BranchWords()
    ensures LiteralText("invitations", false) && LiteralText("organizations", false) && LiteralText("platform", false)
  {
  }

  lemma V1Words()
    ensures Words(V1.edges)
  {
    CheckWords();
    ResourceWords();
    BranchWords();
  }

  lemma V1Differ()
    ensures Differ(V1.edges)
  {
  }

  lemma V1InvitationsClear()
    ensures Clear(V1_INVITATIONS)
  {
    ActionWords();
    assert LiteralText("preview", true);
  }

  lemma V1OrganizationsClear()
    ensures Clear(V1_ORGANIZATIONS)
  {
    OrganizationsOrganizationIdClear();
  }

  lemma LeafClear(verbs: set<Method>)
    ensures Clear(Node(verbs, []))
  {
  }

  lemma V1Clear()
    ensures Clear(V1)
  {
    V1Words();
    V1Differ();
    V1InvitationsClear();
    V1OrganizationsClear();
    V1PlatformClear();
    LeafClear({GET});
    LeafClear({POST});
    LeafClear({PUT});
  }

  lemma OperationsClear()
    ensures Clear(OPERATIONS)
  {
    V1Clear();
  }
}
