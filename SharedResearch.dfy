/**
 * The "Shared with Me" table: a fixed list of vaults, one row per vault with
 * the owner's initials, a role badge and a divider under every row but the
 * last.
 */
module SharedResearch {
  import opened Text

  datatype SharedVault = SharedVault(id: int, name: string, owner: string, role: string, lastActive: string)

  const SharedVaults: seq<SharedVault> := [
    SharedVault(1, "Quantum Physics Lab", "Dr. Smith", "Viewer", "2 mins ago"),
    SharedVault(2, "Machine Learning Notes", "Prof. Chen", "Contributor", "1 hour ago"),
    SharedVault(3, "Organic Chemistry", "Dr. Lee", "Contributor", "3 hours ago"),
    SharedVault(4, "Statistics 101", "Prof. Adams", "Viewer", "2 days ago"),
    SharedVault(5, "Neural Networks", "Dr. Smith", "Viewer", "5 days ago")
  ]

  /** `roleBadge`, keyed by the role's text. */
  const RoleBadge: map<string, string> := map[
    "Owner" := "bg-marker-red/15 border-marker-red/40",
    "Contributor" := "bg-marker-blue/15 border-marker-blue/40",
    "Viewer" := "bg-muted border-muted-foreground/30"
  ]

  /**
   * The owner's initials: the first character of every space-separated piece
   * of the name, neither upper-cased nor cut short, so never more characters
   * than pieces.
   */
  function OwnerInitials(owner: string): (r: string)
    ensures |r| <= |Split(owner, ' ')|
  {
    FirstLetters(Split(owner, ' '))
  }

  /** The owner initials are exactly the characters that start a word of the name, in order. */
  lemma OwnerInitialsSpec(owner: string)
    ensures OwnerInitials(owner) == WordStarts(owner, ' ', true)
  {
    FirstLettersOfSplit(owner, ' ');
  }

  lemma OwnerInitialsExamples()
    ensures OwnerInitials("Prof. Adams") == "PA"
    ensures OwnerInitials("Dr. Smith") == "DS"
  {
    assert "Prof. Adams" == "Prof." + " " + "Adams";
    FirstLettersOfTwoWords("Prof.", "Adams");
    assert "Dr. Smith" == "Dr." + " " + "Smith";
    FirstLettersOfTwoWords("Dr.", "Smith");
  }

  /** Whether row i of n gets the dashed divider: every row of the table but the last one does. */
  function HasDivider(i: int, n: int): (b: bool)
    ensures 0 <= i < n ==> (b <==> i != n - 1)
  {
    i < n - 1
  }

  /** Every shared vault's role is a key of `roleBadge`, so the lookup never misses. */
  lemma BadgeLookupTotal()
    ensures forall k :: 0 <= k < |SharedVaults| ==> SharedVaults[k].role in RoleBadge
  {
  }

  /** One rendered row. */
  datatype Row = Row(project: string, ownerInitials: string, owner: string, role: string,
                     badge: string, lastActive: string, divider: bool)

  /**
   * The table body: one row per vault, in order, each showing its vault's
   * name, owner, role and last activity with the badge of its role; only the
   * last row lacks the divider.
   */
  function Rows(vs: seq<SharedVault>): (rows: seq<Row>)
    requires forall k :: 0 <= k < |vs| ==> vs[k].role in RoleBadge
    ensures |rows| == |vs|
    ensures forall k :: 0 <= k < |vs| ==>
              && rows[k].project == vs[k].name
              && rows[k].owner == vs[k].owner
              && rows[k].role == vs[k].role
              && rows[k].lastActive == vs[k].lastActive
              && rows[k].badge == RoleBadge[vs[k].role]
              && (rows[k].divider <==> k != |vs| - 1)
  {
    seq(|vs|, k requires 0 <= k < |vs| =>
      Row(vs[k].name, OwnerInitials(vs[k].owner), vs[k].owner, vs[k].role,
          RoleBadge[vs[k].role], vs[k].lastActive, HasDivider(k, |vs|)))
  }

  /** Each row's initials are the characters that start a word of its owner's name. */
  lemma RowsSpec(vs: seq<SharedVault>)
    requires forall k :: 0 <= k < |vs| ==> vs[k].role in RoleBadge
    ensures forall k :: 0 <= k < |Rows(vs)| ==> Rows(vs)[k].ownerInitials == WordStarts(vs[k].owner, ' ', true)
  {
    forall k | 0 <= k < |vs| ensures Rows(vs)[k].ownerInitials == WordStarts(vs[k].owner, ' ', true) {
      OwnerInitialsSpec(vs[k].owner);
    }
  }
}
