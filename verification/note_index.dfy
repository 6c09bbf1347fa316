/**
 The note reference index of the tenant API: what note_references should hold for a note, and how
 that depends on the notes table. Columns that references never read (title, tags, status, session,
 attribution) are not part of a row here.
 */
module NoteIndex {
  import opened Outcomes
  import Text
  import Inline = NoteReferences
  import Utf16

  datatype NoteRow = NoteRow(campaign: string, body: string, linked: seq<string>, createdAt: int, updatedAt: int)

  datatype Kind = LinkedKind | InlineKind

  datatype Pending = Pending(target: string, kind: Kind, caption: Option<string>, qualifier: Option<string>,
                             position: Option<nat>)

  // A note_references row; everything but its id is its entry.
  datatype Entry = Entry(campaign: string, pending: Pending, at: int)
  datatype RefRow = RefRow(id: nat, source: string, entry: Entry)

  datatype StoreError =
    | BadBody(error: Inline.ParseError)
    | TargetNotFound(target: string)
    | TargetInOtherCampaign(target: string)
    | CampaignNotFound(campaign: string)

  type Notes = map<string, NoteRow>

  function TargetError(notes: Notes, target: string, campaign: string): Option<StoreError> {
    if target !in notes then Some(TargetNotFound(target))
    else if notes[target].campaign != campaign then Some(TargetInOtherCampaign(target))
    else None
  }

  predicate ValidTarget(notes: Notes, target: string, campaign: string) {
    TargetError(notes, target, campaign).None?
  }

  function LinkedTo(target: string): Pending {
    Pending(target, LinkedKind, None, None, None)
  }

  function InlineTo(r: Inline.Reference): Pending {
    Pending(r.target, InlineKind, r.caption, r.qualifier, Some(r.position))
  }

  function Prepend(p: Pending, rest: Result<seq<Pending>, StoreError>): Result<seq<Pending>, StoreError> {
    match rest case Ok(ps) => Ok([p] + ps) case Err(_) => rest
  }

  // The linked ids, trimmed, blanks and repetitions dropped. An id that is no valid target ends the
  // build, or is passed over when invalid references are allowed.
  function BuildLinked(notes: Notes, campaign: string, linked: seq<string>, seen: set<string>, lenient: bool)
    : (r: Result<seq<Pending>, StoreError>)
    ensures lenient ==> r.Ok?
  {
    if linked == [] then Ok([])
    else
      var target, rest := Text.Trim(linked[0]), linked[1..];
      if target == "" || target in seen then BuildLinked(notes, campaign, rest, seen, lenient)
      else
        match TargetError(notes, target, campaign)
        case None => Prepend(LinkedTo(target), BuildLinked(notes, campaign, rest, seen + {target}, lenient))
        case Some(e) => if lenient then BuildLinked(notes, campaign, rest, seen, lenient) else Err(e)
  }

  function BuildInline(notes: Notes, campaign: string, references: seq<Inline.Reference>, lenient: bool)
    : (r: Result<seq<Pending>, StoreError>)
    ensures lenient ==> r.Ok?
  {
    if references == [] then Ok([])
    else
      match TargetError(notes, references[0].target, campaign)
      case None => Prepend(InlineTo(references[0]), BuildInline(notes, campaign, references[1..], lenient))
      case Some(e) => if lenient then BuildInline(notes, campaign, references[1..], lenient) else Err(e)
  }

  // The inline references of a body; a malformed body has none.
  function InlineOf(body: string): seq<Inline.Reference> {
    match Inline.Parse(body) case Ok(references) => references case Err(_) => []
  }

  function Build(notes: Notes, campaign: string, body: string, linked: seq<string>, lenient: bool)
    : (r: Result<seq<Pending>, StoreError>)
    ensures lenient ==> r.Ok?
  {
    if Inline.Parse(body).Err? && !lenient then Err(BadBody(Inline.Parse(body).error))
    else
      match BuildLinked(notes, campaign, linked, {}, lenient)
      case Err(e) => Err(e)
      case Ok(first) =>
        match BuildInline(notes, campaign, InlineOf(body), lenient)
        case Err(e) => Err(e)
        case Ok(second) => Ok(first + second)
  }

  function Entries(campaign: string, at: int, ps: seq<Pending>): seq<Entry> {
    if ps == [] then [] else [Entry(campaign, ps[0], at)] + Entries(campaign, at, ps[1..])
  }

  // What the full rebuild writes for a note.
  function Rebuilt(notes: Notes, id: string): seq<Entry>
    requires id in notes
  {
    var note := notes[id];
    Entries(note.campaign, note.updatedAt, Build(notes, note.campaign, note.body, note.linked, true).value)
  }

  function RowsOf(rows: seq<RefRow>, source: string): seq<Entry> {
    if rows == [] then []
    else (if rows[0].source == source then [rows[0].entry] else []) + RowsOf(rows[1..], source)
  }

  // The foreign keys of note_references.
  ghost predicate KeysHold(notes: Notes, rows: seq<RefRow>) {
    forall i | 0 <= i < |rows| :: rows[i].source in notes && rows[i].entry.pending.target in notes
  }

  // The table holds for every note, in order, what the full rebuild would write.
  ghost predicate Indexed(notes: Notes, rows: seq<RefRow>) {
    && KeysHold(notes, rows)
    && forall id | id in notes :: RowsOf(rows, id) == Rebuilt(notes, id)
  }

  // ------------------------------------------------------------------------------------------
  // A strict build that succeeds writes what the lenient one would.

  lemma {:induction false} StrictLinked(notes: Notes, campaign: string, linked: seq<string>, seen: set<string>)
    requires BuildLinked(notes, campaign, linked, seen, false).Ok?
    ensures BuildLinked(notes, campaign, linked, seen, true) == BuildLinked(notes, campaign, linked, seen, false)
  {
    hide Text.Trim;
    if linked != [] {
      var target := Text.Trim(linked[0]);
      StrictLinked(notes, campaign, linked[1..], if target == "" || target in seen then seen else seen + {target});
    }
  }

  lemma {:induction false} StrictInline(notes: Notes, campaign: string, references: seq<Inline.Reference>)
    requires BuildInline(notes, campaign, references, false).Ok?
    ensures BuildInline(notes, campaign, references, true) == BuildInline(notes, campaign, references, false)
  {
    if references != [] {
      StrictInline(notes, campaign, references[1..]);
    }
  }

  lemma StrictIsLenient(notes: Notes, campaign: string, body: string, linked: seq<string>)
    requires Build(notes, campaign, body, linked, false).Ok?
    ensures Build(notes, campaign, body, linked, true) == Build(notes, campaign, body, linked, false)
  {
    hide Text.Trim, Inline.Parse;
    StrictLinked(notes, campaign, linked, {});
    StrictInline(notes, campaign, InlineOf(body));
  }

  // ------------------------------------------------------------------------------------------
  // Which ids a note mentions, and which of them its references point to.

  function LinkedMentions(linked: seq<string>): set<string> {
    if linked == [] then {} else LinkedMentions(linked[1..]) + ({Text.Trim(linked[0])} - {""})
  }

  function InlineMentions(references: seq<Inline.Reference>): set<string> {
    if references == [] then {} else {references[0].target} + InlineMentions(references[1..])
  }

  function Mentions(note: NoteRow): set<string> {
    LinkedMentions(note.linked) + InlineMentions(InlineOf(note.body))
  }

  function Targets(ps: seq<Pending>): set<string> {
    if ps == [] then {} else {ps[0].target} + Targets(ps[1..])
  }

  lemma {:induction false} LinkedTargets(notes: Notes, campaign: string, linked: seq<string>, seen: set<string>)
    ensures var targets := Targets(BuildLinked(notes, campaign, linked, seen, true).value);
      forall t :: t in targets <==> t in LinkedMentions(linked) && t !in seen && ValidTarget(notes, t, campaign)
  {
    hide Text.Trim;
    if linked != [] {
      var target := Text.Trim(linked[0]);
      var valid := target != "" && target !in seen && ValidTarget(notes, target, campaign);
      LinkedTargets(notes, campaign, linked[1..], if valid then seen + {target} else seen);
    }
  }

  lemma {:induction false} InlineTargets(notes: Notes, campaign: string, references: seq<Inline.Reference>)
    ensures var targets := Targets(BuildInline(notes, campaign, references, true).value);
      forall t :: t in targets <==> t in InlineMentions(references) && ValidTarget(notes, t, campaign)
  {
    if references != [] {
      InlineTargets(notes, campaign, references[1..]);
    }
  }

  lemma {:induction false} TargetsConcat(a: seq<Pending>, b: seq<Pending>)
    ensures Targets(a + b) == Targets(a) + Targets(b)
  {
    if a == [] {
      assert a + b == b;
    } else {
      assert (a + b)[1..] == a[1..] + b;
      TargetsConcat(a[1..], b);
    }
  }

  // The rebuild points to exactly the mentioned notes that exist in the campaign.
  lemma BuildTargets(notes: Notes, note: NoteRow)
    ensures var targets := Targets(Build(notes, note.campaign, note.body, note.linked, true).value);
      forall t :: t in targets <==> t in Mentions(note) && ValidTarget(notes, t, note.campaign)
  {
    hide Text.Trim, Inline.Parse;
    LinkedTargets(notes, note.campaign, note.linked, {});
    InlineTargets(notes, note.campaign, InlineOf(note.body));
    TargetsConcat(BuildLinked(notes, note.campaign, note.linked, {}, true).value,
                  BuildInline(notes, note.campaign, InlineOf(note.body), true).value);
  }

  // Every target once, none of them among the seen ones.
  ghost predicate LinksOnce(ps: seq<Pending>, seen: set<string>) {
    && (forall i | 0 <= i < |ps| :: ps[i] == LinkedTo(ps[i].target) && ps[i].target !in seen)
    && forall i, j | 0 <= i < j < |ps| :: ps[i].target != ps[j].target
  }

  lemma OneMoreLink(target: string, rest: seq<Pending>, seen: set<string>)
    requires LinksOnce(rest, seen + {target}) && target !in seen
    ensures LinksOnce([LinkedTo(target)] + rest, seen)
  {
  }

  lemma {:induction false} LinkedOnce(notes: Notes, campaign: string, linked: seq<string>, seen: set<string>)
    ensures LinksOnce(BuildLinked(notes, campaign, linked, seen, true).value, seen)
  {
    hide Text.Trim, LinksOnce;
    if linked == [] {
      assert LinksOnce([], seen) by { NoLinks(seen); }
    } else {
      var target := Text.Trim(linked[0]);
      var valid := target != "" && target !in seen && ValidTarget(notes, target, campaign);
      var more := if valid then seen + {target} else seen;
      LinkedOnce(notes, campaign, linked[1..], more);
      if valid {
        OneMoreLink(target, BuildLinked(notes, campaign, linked[1..], more, true).value, seen);
      }
    }
  }

  lemma NoLinks(seen: set<string>)
    ensures LinksOnce([], seen)
  {
  }

  ghost predicate Increasing(references: seq<Inline.Reference>) {
    forall i, j | 0 <= i < j < |references| :: references[i].position < references[j].position
  }

  lemma InlineIncreasing(body: string)
    ensures Increasing(InlineOf(body))
  {
    hide Inline.Parse;
    if Inline.Parse(body).Ok? {
      Inline.ParseExactly(body, Inline.Parse(body).value);
      var references := Inline.Parse(body).value;
      var ends :| Inline.ReadsUnits(Utf16.Encode(body), references, ends);
      forall i | 0 <= i < |references| ensures references[i].position < ends[i] {
        assert Inline.UnitSpan(Utf16.Encode(body), references[i], ends[i]);
      }
    }
  }

  ghost predicate IsInline(p: Pending, references: seq<Inline.Reference>) {
    exists k :: 0 <= k < |references| && p == InlineTo(references[k])
  }

  // Some of the references, in their order.
  ghost predicate InlinesOnce(ps: seq<Pending>, references: seq<Inline.Reference>) {
    && (forall i | 0 <= i < |ps| :: ps[i].position.Some? && IsInline(ps[i], references))
    && forall i, j | 0 <= i < j < |ps| :: ps[i].position.value < ps[j].position.value
  }

  lemma LaterInline(p: Pending, references: seq<Inline.Reference>)
    requires references != [] && Increasing(references) && IsInline(p, references[1..])
    ensures IsInline(p, references) && p.position.value > references[0].position
  {
    var k :| 0 <= k < |references[1..]| && p == InlineTo(references[1..][k]);
    assert references[1..][k] == references[k + 1];
  }

  lemma OneMoreInline(rest: seq<Pending>, references: seq<Inline.Reference>)
    requires references != [] && Increasing(references) && InlinesOnce(rest, references[1..])
    ensures InlinesOnce(rest, references) && InlinesOnce([InlineTo(references[0])] + rest, references)
  {
    var first := InlineTo(references[0]);
    assert IsInline(first, references);
    hide IsInline;
    forall i | 0 <= i < |rest|
      ensures IsInline(rest[i], references) && rest[i].position.value > references[0].position
    {
      LaterInline(rest[i], references);
    }
    assert forall i | 0 < i < |[first] + rest| :: ([first] + rest)[i] == rest[i - 1];
  }

  lemma {:induction false} InlineOnce(notes: Notes, campaign: string, references: seq<Inline.Reference>)
    requires Increasing(references)
    ensures InlinesOnce(BuildInline(notes, campaign, references, true).value, references)
  {
    if references != [] {
      assert Increasing(references[1..]) by {
        assert forall k | 0 <= k < |references[1..]| :: references[1..][k] == references[k + 1];
      }
      InlineOnce(notes, campaign, references[1..]);
      OneMoreInline(BuildInline(notes, campaign, references[1..], true).value, references);
      hide InlinesOnce, Increasing;
    }
  }

  // The rebuild links every target once, without label or position, and then has the inline
  // references of the body with theirs, in the order of the body.
  lemma BuildOnce(notes: Notes, note: NoteRow) returns (linked: seq<Pending>, inlines: seq<Pending>)
    ensures Build(notes, note.campaign, note.body, note.linked, true).value == linked + inlines
    ensures LinksOnce(linked, {}) && InlinesOnce(inlines, InlineOf(note.body))
  {
    hide LinksOnce, InlinesOnce, InlineOf;
    linked := BuildLinked(notes, note.campaign, note.linked, {}, true).value;
    inlines := BuildInline(notes, note.campaign, InlineOf(note.body), true).value;
    LinkedOnce(notes, note.campaign, note.linked, {});
    InlineIncreasing(note.body);
    InlineOnce(notes, note.campaign, InlineOf(note.body));
    BuildParts(notes, note);
  }

  lemma BuildParts(notes: Notes, note: NoteRow)
    ensures Build(notes, note.campaign, note.body, note.linked, true).value
         == BuildLinked(notes, note.campaign, note.linked, {}, true).value
            + BuildInline(notes, note.campaign, InlineOf(note.body), true).value
  {
    hide Inline.Parse, InlineOf;
  }

  // ------------------------------------------------------------------------------------------
  // Deleting notes: the rebuild then gives what it gave, less the references to the deleted ones.

  function Without(ps: seq<Pending>, gone: set<string>): seq<Pending> {
    if ps == [] then []
    else (if ps[0].target in gone then [] else [ps[0]]) + Without(ps[1..], gone)
  }

  lemma {:induction false} LinkedWithout(notes: Notes, gone: set<string>, campaign: string, linked: seq<string>,
                                         seen: set<string>)
    ensures BuildLinked(notes - gone, campaign, linked, seen - gone, true).value
         == Without(BuildLinked(notes, campaign, linked, seen, true).value, gone)
  {
    hide Text.Trim;
    if linked != [] {
      var target := Text.Trim(linked[0]);
      var valid := target != "" && target !in seen && ValidTarget(notes, target, campaign);
      LinkedWithout(notes, gone, campaign, linked[1..], if valid then seen + {target} else seen);
      assert target !in gone ==> (seen - gone) + {target} == (seen + {target}) - gone;
      assert target in gone ==> (seen + {target}) - gone == seen - gone;
    }
  }

  lemma {:induction false} InlineWithout(notes: Notes, gone: set<string>, campaign: string,
                                         references: seq<Inline.Reference>)
    ensures BuildInline(notes - gone, campaign, references, true).value
         == Without(BuildInline(notes, campaign, references, true).value, gone)
  {
    if references != [] {
      InlineWithout(notes, gone, campaign, references[1..]);
    }
  }

  lemma {:induction false} WithoutConcat(a: seq<Pending>, b: seq<Pending>, gone: set<string>)
    ensures Without(a + b, gone) == Without(a, gone) + Without(b, gone)
  {
    if a == [] {
      assert a + b == b;
    } else {
      assert (a + b)[1..] == a[1..] + b;
      WithoutConcat(a[1..], b, gone);
    }
  }

  lemma BuildWithout(notes: Notes, gone: set<string>, campaign: string, body: string, linked: seq<string>)
    ensures Build(notes - gone, campaign, body, linked, true).value
         == Without(Build(notes, campaign, body, linked, true).value, gone)
  {
    hide Inline.Parse;
    LinkedWithout(notes, gone, campaign, linked, {});
    assert {} - gone == {};
    InlineWithout(notes, gone, campaign, InlineOf(body));
    WithoutConcat(BuildLinked(notes, campaign, linked, {}, true).value,
                  BuildInline(notes, campaign, InlineOf(body), true).value, gone);
  }

  lemma {:induction false} WithoutNothing(ps: seq<Pending>, gone: set<string>)
    requires Targets(ps) !! gone
    ensures Without(ps, gone) == ps
  {
    if ps != [] {
      WithoutNothing(ps[1..], gone);
    }
  }

  // ... and the cascading foreign keys take exactly those rows.
  function Cascade(rows: seq<RefRow>, gone: set<string>): seq<RefRow> {
    if rows == [] then []
    else
      (if rows[0].source in gone || rows[0].entry.pending.target in gone then [] else [rows[0]])
      + Cascade(rows[1..], gone)
  }

  function EntriesWithout(es: seq<Entry>, gone: set<string>): seq<Entry> {
    if es == [] then []
    else (if es[0].pending.target in gone then [] else [es[0]]) + EntriesWithout(es[1..], gone)
  }

  lemma {:induction false} CascadeRows(rows: seq<RefRow>, gone: set<string>, id: string)
    requires id !in gone
    ensures RowsOf(Cascade(rows, gone), id) == EntriesWithout(RowsOf(rows, id), gone)
  {
    if rows != [] {
      CascadeRows(rows[1..], gone, id);
      var first := rows[0];
      var kept := Cascade(rows[1..], gone);
      if first.source !in gone && first.entry.pending.target !in gone {
        assert ([first] + kept)[1..] == kept;
      } else {
        assert [] + kept == kept;
      }
      if first.source == id {
        assert ([first.entry] + RowsOf(rows[1..], id))[1..] == RowsOf(rows[1..], id);
      } else {
        assert [] + RowsOf(rows[1..], id) == RowsOf(rows[1..], id);
      }
    }
  }

  lemma {:induction false} EntriesWithoutPending(campaign: string, at: int, ps: seq<Pending>, gone: set<string>)
    ensures EntriesWithout(Entries(campaign, at, ps), gone) == Entries(campaign, at, Without(ps, gone))
  {
    if ps != [] {
      EntriesWithoutPending(campaign, at, ps[1..], gone);
      var rest := Without(ps[1..], gone);
      if ps[0].target !in gone {
        assert ([ps[0]] + rest)[1..] == rest;
      } else {
        assert [] + rest == rest;
      }
    }
  }

  lemma {:induction false} CascadeKeys(notes: Notes, rows: seq<RefRow>, gone: set<string>)
    requires KeysHold(notes, rows)
    ensures KeysHold(notes - gone, Cascade(rows, gone))
  {
    if rows != [] {
      assert KeysHold(notes, rows[1..]) by {
        assert forall i | 0 <= i < |rows[1..]| :: rows[1..][i] == rows[i + 1];
      }
      CascadeKeys(notes, rows[1..], gone);
    }
  }

  lemma DeleteKeepsIndex(notes: Notes, rows: seq<RefRow>, gone: set<string>)
    requires Indexed(notes, rows)
    ensures Indexed(notes - gone, Cascade(rows, gone))
  {
    hide Build;
    CascadeKeys(notes, rows, gone);
    forall id | id in notes - gone ensures RowsOf(Cascade(rows, gone), id) == Rebuilt(notes - gone, id) {
      var note := notes[id];
      CascadeRows(rows, gone, id);
      BuildWithout(notes, gone, note.campaign, note.body, note.linked);
      EntriesWithoutPending(note.campaign, note.updatedAt,
                            Build(notes, note.campaign, note.body, note.linked, true).value, gone);
    }
  }

  // ------------------------------------------------------------------------------------------
  // Writing one note.

  // The ids a build of this campaign accepts are the same in both tables.
  ghost predicate SameTargets(a: Notes, b: Notes, campaign: string) {
    forall t :: ValidTarget(a, t, campaign) == ValidTarget(b, t, campaign)
  }

  lemma {:induction false} SameLinked(a: Notes, b: Notes, campaign: string, linked: seq<string>, seen: set<string>)
    requires SameTargets(a, b, campaign)
    ensures BuildLinked(a, campaign, linked, seen, true) == BuildLinked(b, campaign, linked, seen, true)
  {
    hide Text.Trim;
    if linked != [] {
      var target := Text.Trim(linked[0]);
      var valid := target != "" && target !in seen && ValidTarget(a, target, campaign);
      SameLinked(a, b, campaign, linked[1..], if valid then seen + {target} else seen);
    }
  }

  lemma {:induction false} SameInline(a: Notes, b: Notes, campaign: string, references: seq<Inline.Reference>)
    requires SameTargets(a, b, campaign)
    ensures BuildInline(a, campaign, references, true) == BuildInline(b, campaign, references, true)
  {
    if references != [] {
      assert ValidTarget(a, references[0].target, campaign) == ValidTarget(b, references[0].target, campaign);
      SameInline(a, b, campaign, references[1..]);
    }
  }

  lemma SameBuild(a: Notes, b: Notes, note: NoteRow)
    requires SameTargets(a, b, note.campaign)
    ensures Build(a, note.campaign, note.body, note.linked, true)
         == Build(b, note.campaign, note.body, note.linked, true)
  {
    hide Inline.Parse;
    SameLinked(a, b, note.campaign, note.linked, {});
    SameInline(a, b, note.campaign, InlineOf(note.body));
  }

  // A note that does not mention the new id, or lives in another campaign, is rebuilt as before.
  lemma NewNoteBuild(notes: Notes, id: string, row: NoteRow, note: NoteRow)
    requires id !in notes && (note.campaign == row.campaign ==> id !in Mentions(note))
    ensures Build(notes[id := row], note.campaign, note.body, note.linked, true)
         == Build(notes, note.campaign, note.body, note.linked, true)
  {
    hide Build, Mentions;
    if note.campaign != row.campaign {
      SameBuild(notes, notes[id := row], note);
    } else {
      var more := notes[id := row];
      assert more - {id} == notes;
      BuildTargets(more, note);
      BuildWithout(more, {id}, note.campaign, note.body, note.linked);
      WithoutNothing(Build(more, note.campaign, note.body, note.linked, true).value, {id});
    }
  }

  // The rows of a source replaced by freshly numbered ones at the end of the table.
  function Cleared(rows: seq<RefRow>, source: string): seq<RefRow> {
    if rows == [] then []
    else (if rows[0].source == source then [] else [rows[0]]) + Cleared(rows[1..], source)
  }

  lemma {:induction false} ClearedRows(rows: seq<RefRow>, source: string, id: string)
    ensures RowsOf(Cleared(rows, source), id) == if id == source then [] else RowsOf(rows, id)
  {
    if rows != [] {
      ClearedRows(rows[1..], source, id);
      var kept := Cleared(rows[1..], source);
      if rows[0].source != source {
        assert ([rows[0]] + kept)[1..] == kept;
      } else {
        assert [] + kept == kept;
      }
    }
  }

  lemma {:induction false} ClearedIn(rows: seq<RefRow>, source: string)
    ensures forall r | r in Cleared(rows, source) :: r in rows
  {
    if rows != [] {
      ClearedIn(rows[1..], source);
    }
  }

  lemma {:induction false} RowsConcat(a: seq<RefRow>, b: seq<RefRow>, id: string)
    ensures RowsOf(a + b, id) == RowsOf(a, id) + RowsOf(b, id)
  {
    assert RowsOf([], id) == [];
    hide RowsOf;
    if a == [] {
      assert a + b == b;
    } else {
      RowsConcat(a[1..], b, id);
      RowsTurn(a, id);
      assert (a + b)[0] == a[0] && (a + b)[1..] == a[1..] + b;
      RowsTurn(a + b, id);
    }
  }

  lemma RowsTurn(rows: seq<RefRow>, id: string)
    requires rows != []
    ensures RowsOf(rows, id) == (if rows[0].source == id then [rows[0].entry] else []) + RowsOf(rows[1..], id)
  {
  }

  // The index holds once every note but one is indexed and that one's rows are what a successful
  // build gave.
  ghost predicate IndexedBut(notes: Notes, rows: seq<RefRow>, missing: set<string>) {
    && KeysHold(notes, rows)
    && forall id | id in notes && id !in missing :: RowsOf(rows, id) == Rebuilt(notes, id)
  }

  lemma CreateKeepsOthers(notes: Notes, rows: seq<RefRow>, id: string, row: NoteRow)
    requires Indexed(notes, rows) && id !in notes
    requires forall other | other in notes && notes[other].campaign == row.campaign :: id !in Mentions(notes[other])
    ensures IndexedBut(notes[id := row], rows, {id})
  {
    hide Build, Mentions;
    forall other | other in notes ensures RowsOf(rows, other) == Rebuilt(notes[id := row], other) {
      NewNoteBuild(notes, id, row, notes[other]);
    }
  }

  lemma UpdateKeepsOthers(notes: Notes, rows: seq<RefRow>, id: string, row: NoteRow)
    requires Indexed(notes, rows) && id in notes && notes[id].campaign == row.campaign
    ensures IndexedBut(notes[id := row], rows, {id})
  {
    hide Build;
    forall other | other in notes && other != id ensures RowsOf(rows, other) == Rebuilt(notes[id := row], other) {
      SameBuild(notes, notes[id := row], notes[other]);
    }
  }

  // After any two runs that both leave the table indexed, it holds the same entries: in particular
  // a rebuild of an indexed table changes row ids only.
  lemma RebuildChangesIdsOnly(notes: Notes, before: seq<RefRow>, after: seq<RefRow>)
    requires Indexed(notes, before) && Indexed(notes, after)
    ensures forall id :: RowsOf(before, id) == RowsOf(after, id)
  {
    forall id | id !in notes ensures RowsOf(before, id) == [] && RowsOf(after, id) == [] {
      NoRows(notes, before, id);
      NoRows(notes, after, id);
    }
  }

  lemma {:induction false} NoRows(notes: Notes, rows: seq<RefRow>, id: string)
    requires KeysHold(notes, rows) && id !in notes
    ensures RowsOf(rows, id) == []
  {
    if rows != [] {
      assert forall i | 0 <= i < |rows[1..]| :: rows[1..][i] == rows[i + 1];
      NoRows(notes, rows[1..], id);
    }
  }
}
