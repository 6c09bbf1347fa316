/** Membership consolidation, which moves note attribution, and the claim of a guest membership. */
module Memberships {
  import opened Outcomes

  datatype Role = Owner | Guest

  datatype Membership = Membership(campaign: string, role: Role, userId: Option<string>, guestTokenId: Option<string>)

  // The attribution of a note.
  datatype Note = Note(id: string, campaign: string, createdBy: Option<string>, lastEditedBy: Option<string>)

  datatype Store = Store(active: set<string>, memberships: map<string, Membership>, notes: seq<Note>)

  datatype Counts = Counts(authored: nat, edited: nat, both: nat, affected: nat)

  datatype Preview =
    | CampaignNotFound
    | Forbidden
    | SameMembership
    | SourceNotFound
    | TargetNotFound
    | IsReady(counts: Counts, roleMismatch: bool)

  predicate Authored(n: Note, m: string) {
    n.createdBy == Some(m)
  }

  predicate Edited(n: Note, m: string) {
    n.lastEditedBy == Some(m)
  }

  // The notes of a campaign attributed to a membership, by either column.
  function NotesOf(notes: seq<Note>, campaign: string, m: string): set<nat> {
    set i: nat | i < |notes| && notes[i].campaign == campaign && (Authored(notes[i], m) || Edited(notes[i], m))
  }

  function CountNotes(notes: seq<Note>, campaign: string, m: string): Counts {
    if notes == [] then Counts(0, 0, 0, 0)
    else
      var rest, n := CountNotes(notes[1..], campaign, m), notes[0];
      if n.campaign != campaign then rest
      else Counts(rest.authored + (if Authored(n, m) then 1 else 0),
                  rest.edited + (if Edited(n, m) then 1 else 0),
                  rest.both + (if Authored(n, m) && Edited(n, m) then 1 else 0),
                  rest.affected + (if Authored(n, m) || Edited(n, m) then 1 else 0))
  }

  function Reassigned(notes: seq<Note>, campaign: string, source: string, target: string): (r: seq<Note>)
    ensures |r| == |notes|
    ensures forall i | 0 <= i < |notes| :: r[i] == ReassignedNote(notes[i], campaign, source, target)
  {
    if notes == [] then []
    else [ReassignedNote(notes[0], campaign, source, target)] + Reassigned(notes[1..], campaign, source, target)
  }

  function ReassignedNote(n: Note, campaign: string, source: string, target: string): Note {
    if n.campaign == campaign && (Authored(n, source) || Edited(n, source)) then
      n.(createdBy := if Authored(n, source) then Some(target) else n.createdBy,
         lastEditedBy := if Edited(n, source) then Some(target) else n.lastEditedBy)
    else n
  }

  predicate IsOwnerOf(s: Store, user: string, m: string) {
    m in s.memberships && s.memberships[m].userId == Some(user) && s.memberships[m].role.Owner?
  }

  ghost predicate Owns(s: Store, campaign: string, user: string) {
    exists m :: IsOwnerOf(s, user, m) && s.memberships[m].campaign == campaign
  }

  predicate InCampaign(s: Store, campaign: string, m: string) {
    m in s.memberships && s.memberships[m].campaign == campaign
  }

  // The guards in their order.
  ghost function PreviewOf(s: Store, campaign: string, source: string, target: string, user: string): Preview {
    if campaign !in s.active then CampaignNotFound
    else if !Owns(s, campaign, user) then Forbidden
    else if source == target then SameMembership
    else if !InCampaign(s, campaign, source) then SourceNotFound
    else if !InCampaign(s, campaign, target) then TargetNotFound
    else IsReady(CountNotes(s.notes, campaign, source), s.memberships[source].role != s.memberships[target].role)
  }

  // When each answer is due, by the memberships alone. Of several reasons to refuse the first one counts.
  lemma PreviewExactly(s: Store, campaign: string, source: string, target: string, user: string)
    ensures var r := PreviewOf(s, campaign, source, target, user);
      var active := campaign in s.active;
      var owner := exists m :: m in s.memberships && s.memberships[m] == s.memberships[m].(campaign := campaign,
        role := Owner, userId := Some(user));
      var here := (m: string) => m in s.memberships && s.memberships[m].campaign == campaign;
      && (r == CampaignNotFound <==> !active)
      && (r == Forbidden <==> active && !owner)
      && (r == SameMembership <==> active && owner && source == target)
      && (r == SourceNotFound <==> active && owner && source != target && !here(source))
      && (r == TargetNotFound <==> active && owner && source != target && here(source) && !here(target))
      && (r.IsReady? <==> active && owner && source != target && here(source) && here(target))
      && (r.IsReady? ==> (r.roleMismatch <==> s.memberships[source].role != s.memberships[target].role))
  {
    forall m | m in s.memberships
      ensures (IsOwnerOf(s, user, m) && s.memberships[m].campaign == campaign)
         <==> s.memberships[m] == s.memberships[m].(campaign := campaign, role := Owner, userId := Some(user))
    {
    }
  }

  datatype Claim =
    | NotFound
    | AlreadyLinked
    | AlreadyMember(membership: string)
    | Claimed(membership: string)

  class MembershipDomain {
    var active: set<string>
    var memberships: map<string, Membership>
    var notes: seq<Note>

    ghost function State(): Store reads this {
      Store(active, memberships, notes)
    }

    constructor (s: Store)
      ensures State() == s
    {
      active, memberships, notes := s.active, s.memberships, s.notes;
    }

    method OwnsCampaign(campaign: string, user: string) returns (owns: bool)
      ensures owns == Owns(State(), campaign, user)
    {
      var left := memberships.Keys;
      while left != {}
        invariant left <= memberships.Keys
        invariant forall m | m in memberships && m !in left ::
          !(IsOwnerOf(State(), user, m) && memberships[m].campaign == campaign)
        decreases left
      {
        var m :| m in left;
        left := left - {m};
        if memberships[m].userId == Some(user) && memberships[m].role.Owner? && memberships[m].campaign == campaign {
          assert IsOwnerOf(State(), user, m);
          return true;
        }
      }
      return false;
    }

    method PreviewConsolidation(campaign: string, source: string, target: string, user: string) returns (r: Preview)
      ensures r == PreviewOf(State(), campaign, source, target, user)
    {
      if campaign !in active {
        return CampaignNotFound;
      }
      var owns := OwnsCampaign(campaign, user);
      if !owns {
        return Forbidden;
      }
      if source == target {
        return SameMembership;
      }
      if !(source in memberships && memberships[source].campaign == campaign) {
        return SourceNotFound;
      }
      if !(target in memberships && memberships[target].campaign == campaign) {
        return TargetNotFound;
      }
      return IsReady(CountNotes(notes, campaign, source), memberships[source].role != memberships[target].role);
    }

    // Only a ready preview is applied, and then only the attribution of notes changes.
    method Consolidate(campaign: string, source: string, target: string, user: string) returns (r: Preview)
      modifies this`notes
      ensures r == PreviewOf(old(State()), campaign, source, target, user)
      ensures notes == if r.IsReady? then Reassigned(old(notes), campaign, source, target) else old(notes)
    {
      r := PreviewConsolidation(campaign, source, target, user);
      if r.IsReady? {
        notes := Reassigned(notes, campaign, source, target);
      }
    }

    // A guest membership becomes a user's unless the user is a member of the campaign already. A new
    // guest token replaces the old one.
    method ClaimGuest(id: string, user: string, token: string) returns (r: Claim)
      modifies this`memberships
      ensures r.NotFound? <==> id !in old(memberships) || !old(memberships)[id].role.Guest?
      ensures r.AlreadyLinked? ==> old(memberships)[id].userId.Some?
      ensures r.AlreadyMember? ==>
        && old(memberships)[id].userId.None? && r.membership in old(memberships)
        && old(memberships)[r.membership].userId == Some(user)
        && old(memberships)[r.membership].campaign == old(memberships)[id].campaign
      ensures r.Claimed? ==>
        && r.membership == id && old(memberships)[id].userId.None?
        && (forall m | m in old(memberships) && old(memberships)[m].campaign == old(memberships)[id].campaign ::
              old(memberships)[m].userId != Some(user))
        && var claimed := old(memberships)[id].(userId := Some(user), guestTokenId := Some(token));
           memberships == old(memberships)[id := claimed]
      ensures !r.Claimed? ==> memberships == old(memberships)
      ensures OneMembershipEach(old(memberships)) ==> OneMembershipEach(memberships)
    {
      if id !in memberships || !memberships[id].role.Guest? {
        return NotFound;
      }
      var membership := memberships[id];
      if membership.userId.Some? {
        return AlreadyLinked;
      }
      var left := memberships.Keys;
      while left != {}
        invariant left <= memberships.Keys
        invariant forall m | m in memberships && m !in left && memberships[m].campaign == membership.campaign ::
          memberships[m].userId != Some(user)
        decreases left
      {
        var m :| m in left;
        left := left - {m};
        if memberships[m].campaign == membership.campaign && memberships[m].userId == Some(user) {
          return AlreadyMember(m);
        }
      }
      memberships := memberships[id := membership.(userId := Some(user), guestTokenId := Some(token))];
      return Claimed(id);
    }
  }

  // No user has two memberships of one campaign.
  ghost predicate OneMembershipEach(ms: map<string, Membership>) {
    forall a, b | a in ms && b in ms && ms[a].campaign == ms[b].campaign && ms[a].userId.Some?
      && ms[a].userId == ms[b].userId ::
      a == b
  }

  // ------------------------------------------------------------------------------------------
  // What the numbers of a preview mean.

  lemma {:induction false} AffectedCounts(notes: seq<Note>, campaign: string, m: string)
    ensures var c := CountNotes(notes, campaign, m);
      && c.affected == c.authored + c.edited - c.both
      && c.both <= c.authored <= c.affected && c.both <= c.edited <= c.affected
      && (c.affected == 0 <==> forall i | 0 <= i < |notes| && notes[i].campaign == campaign ::
                                 !Authored(notes[i], m) && !Edited(notes[i], m))
  {
    if notes != [] {
      AffectedCounts(notes[1..], campaign, m);
      assert forall i | 0 <= i < |notes| :: notes[i] == if i == 0 then notes[0] else notes[1..][i - 1];
    }
  }

  // The numbers count notes: those the member created, those it edited last, those it did both to, and
  // those it did either to.
  lemma {:induction false} CountsExactly(notes: seq<Note>, campaign: string, m: string)
    ensures var c := CountNotes(notes, campaign, m);
      && c.authored == |Where(notes, (n: Note) => n.campaign == campaign && n.createdBy == Some(m))|
      && c.edited == |Where(notes, (n: Note) => n.campaign == campaign && n.lastEditedBy == Some(m))|
      && c.both ==
           |Where(notes, (n: Note) => n.campaign == campaign && n.createdBy == Some(m) && n.lastEditedBy == Some(m))|
      && c.affected ==
           |Where(notes, (n: Note) => n.campaign == campaign && (n.createdBy == Some(m) || n.lastEditedBy == Some(m)))|
  {
    hide Where;
    if notes == [] {
      forall p: Note -> bool {
        WhereNone(p);
      }
    } else {
      CountsExactly(notes[1..], campaign, m);
      forall p: Note -> bool {
        WhereTurn(notes, p);
      }
    }
  }

  ghost function Where(notes: seq<Note>, p: Note -> bool): set<nat> {
    set i: nat | i < |notes| && p(notes[i])
  }

  lemma WhereNone(p: Note -> bool)
    ensures |Where([], p)| == 0
  {
    assert Where([], p) == {};
  }

  lemma WhereTurn(notes: seq<Note>, p: Note -> bool)
    requires notes != []
    ensures |Where(notes, p)| == (if p(notes[0]) then 1 else 0) + |Where(notes[1..], p)|
  {
    var all, rest := Where(notes, p), Where(notes[1..], p);
    MovedSize(rest);
    forall i: nat ensures i in all <==> (i == 0 && p(notes[0])) || i in Moved(rest) {
      if i in all && i > 0 {
        assert i - 1 in rest;
      }
    }
    assert all == (if p(notes[0]) then {0} else {}) + Moved(rest);
  }

  // The places one further on.
  ghost function Moved(places: set<nat>): set<nat> {
    set i | i in places :: i + 1
  }

  lemma {:induction false} MovedSize(places: set<nat>)
    ensures |Moved(places)| == |places|
  {
    if x: nat :| x in places {
      MovedSize(places - {x});
      forall i: nat ensures i in Moved(places) <==> i in Moved(places - {x}) || i == x + 1 {
        if i in Moved(places) && i != x + 1 {
          assert i - 1 in places - {x};
        }
      }
      assert Moved(places) == Moved(places - {x}) + {x + 1};
    } else {
      assert places == {};
    }
  }

  // Applying leaves the source nothing in the campaign, gives the target exactly what the two had,
  // column by column, and touches no other membership's attribution and no other campaign.
  lemma ReassignedExactly(notes: seq<Note>, campaign: string, source: string, target: string, i: nat)
    requires i < |notes| && source != target
    ensures var before, after := notes[i], Reassigned(notes, campaign, source, target)[i];
      && after.id == before.id && after.campaign == before.campaign
      && (before.campaign != campaign ==> after == before)
      && (before.campaign == campaign ==>
            && !Authored(after, source) && !Edited(after, source)
            && (Authored(after, target) <==> Authored(before, source) || Authored(before, target))
            && (Edited(after, target) <==> Edited(before, source) || Edited(before, target))
            && forall m | m != source && m != target ::
                 (Authored(after, m) <==> Authored(before, m)) && (Edited(after, m) <==> Edited(before, m)))
      && (after.createdBy.None? <==> before.createdBy.None?)
        && (after.lastEditedBy.None? <==> before.lastEditedBy.None?)
  {
  }

  // Whose notes are whose afterwards.
  lemma NotesAfter(notes: seq<Note>, campaign: string, source: string, target: string, other: string, m: string)
    requires source != target
    ensures NotesOf(Reassigned(notes, campaign, source, target), other, m)
         == if other != campaign || (m != source && m != target) then NotesOf(notes, other, m)
            else if m == source then {}
            else NotesOf(notes, campaign, source) + NotesOf(notes, campaign, target)
  {
  }

  lemma TargetGetsBoth(notes: seq<Note>, campaign: string, source: string, target: string)
    requires source != target
    ensures var after := Reassigned(notes, campaign, source, target);
      && NotesOf(after, campaign, source) == {}
      && NotesOf(after, campaign, target) == NotesOf(notes, campaign, source) + NotesOf(notes, campaign, target)
      && (forall m | m != source && m != target :: NotesOf(after, campaign, m) == NotesOf(notes, campaign, m))
      && forall other, m | other != campaign :: NotesOf(after, other, m) == NotesOf(notes, other, m)
  {
    hide NotesOf, Reassigned;
    forall other, m {
      NotesAfter(notes, campaign, source, target, other, m);
    }
  }

  // A preview taken after applying finds nothing left to do, and applying again changes nothing.
  lemma SecondPreviewIsZero(notes: seq<Note>, campaign: string, source: string, target: string)
    requires source != target
    ensures var after := Reassigned(notes, campaign, source, target);
      CountNotes(after, campaign, source) == Counts(0, 0, 0, 0) && Reassigned(after, campaign, source, target) == after
  {
    AffectedCounts(Reassigned(notes, campaign, source, target), campaign, source);
  }
}
