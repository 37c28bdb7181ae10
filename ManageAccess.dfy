/**
 * The team modal: a list of members whose role can be changed from a
 * three-valued selector, and an invite box whose button has no handler.
 */
module ManageAccess {
  import opened Wrappers

  /** The three roles a member can hold. */
  datatype Role = Owner | Contributor | Viewer

  /** The selector's options, in order. */
  const Roles: seq<Role> := [Owner, Contributor, Viewer]

  /** The option value of a role. */
  function RoleName(r: Role): (name: string)
  {
    match r
    case Owner => "Owner"
    case Contributor => "Contributor"
    case Viewer => "Viewer"
  }

  /**
   * Reading a role back from an option value: it succeeds exactly on the
   * three option values, and then gives the role with that value.
   */
  function ParseRole(s: string): (r: Option<Role>)
    ensures forall q: Role :: r == Some(q) <==> RoleName(q) == s
  {
    if s == "Owner" then Some(Owner)
    else if s == "Contributor" then Some(Contributor)
    else if s == "Viewer" then Some(Viewer)
    else None
  }

  /**
   * The selector offers every role exactly once, and an option value read
   * back gives its role, so the handler's cast of the selected value is sound.
   */
  lemma RolesOffered(r: Role, s: string)
    ensures r in Roles && |Roles| == 3
    ensures forall i, j :: 0 <= i < j < |Roles| ==> Roles[i] != Roles[j]
    ensures ParseRole(RoleName(r)) == Some(r)
    ensures ParseRole(s) == Some(r) <==> s == RoleName(r)
  {
  }

  /** `roleColors`: the selector's colour per role. */
  const RoleColors: map<Role, string> := map[
    Owner := "bg-marker-red/15 text-foreground",
    Contributor := "bg-marker-blue/15 text-foreground",
    Viewer := "bg-muted text-muted-foreground"
  ]

  /** `roleColors[member.role]` is defined for every role, and distinct roles get distinct colours. */
  lemma RoleColorsTotal(r: Role, q: Role)
    ensures r in RoleColors
    ensures r != q ==> RoleColors[r] != RoleColors[q]
  {
  }

  datatype Member = Member(name: string, email: string, role: Role, initials: string)

  const MockMembers: seq<Member> := [
    Member("Dr. Sarah", "sarah@uni.edu", Owner, "DS"),
    Member("Prof. Kim", "kim@uni.edu", Contributor, "PK"),
    Member("Alex R.", "alex@uni.edu", Viewer, "AR")
  ]

  /**
   * The list after the role of row i is set to r: the length and every other
   * member are kept; member i keeps name, email and initials and now has role r.
   */
  function WithRole(ms: seq<Member>, i: nat, r: Role): (res: seq<Member>)
    requires i < |ms|
    ensures |res| == |ms|
    ensures forall k :: 0 <= k < |ms| && k != i ==> res[k] == ms[k]
    ensures res[i] == Member(ms[i].name, ms[i].email, r, ms[i].initials)
  {
    ms[i := ms[i].(role := r)]
  }

  class ManageAccessModal {
    var members: seq<Member>
    var inviteEmail: string

    constructor ()
      ensures members == MockMembers && inviteEmail == ""
    {
      members := MockMembers;
      inviteEmail := "";
    }

    /**
     * The selector of row i: copy the list, replace row i by a copy with the
     * new role, store the copy.
     */
    method ChangeRole(i: nat, r: Role)
      requires i < |members|
      modifies this
      ensures members == WithRole(old(members), i, r)
      ensures inviteEmail == old(inviteEmail)
    {
      var updated := new Member[|members|](k requires 0 <= k < |members| reads this => members[k]);
      updated[i] := updated[i].(role := r);
      members := updated[..];
    }

    /** Typing in the invite box changes only the box. */
    method SetInviteEmail(s: string)
      modifies this
      ensures inviteEmail == s && members == old(members)
    {
      inviteEmail := s;
    }

    /** The colour class of row i's selector: the colour of its role, which no other role shares. */
    function RoleColorOf(i: nat): (c: string)
      requires i < |members|
      reads this
      ensures forall q: Role :: q in RoleColors && (RoleColors[q] == c <==> q == members[i].role)
    {
      RoleColorsTotal(members[i].role, members[i].role);
      forall q: Role ensures q in RoleColors && (q != members[i].role ==> RoleColors[q] != RoleColors[members[i].role]) {
        RoleColorsTotal(q, members[i].role);
      }
      RoleColors[members[i].role]
    }
  }
}
