/**
 The note transactions of the tenant API over the notes and note_references tables. Each keeps the
 index: for every note, the stored reference rows are those a full rebuild would write.
 */
module NoteStore {
  import opened Outcomes
  import opened NoteIndex
  import opened NoteOrder
  import opened NoteReading
  import Text
  import Inline = NoteReferences

  // The two tables. campaigns holds the ids that requireCampaign accepts.
  datatype Tables = Tables(campaigns: set<string>, notes: Notes, references: seq<RefRow>, nextRow: nat)

  datatype Input = Input(body: string, linked: seq<string>)

  datatype Op =
    | Create(id: string, campaign: string, input: Input, now: int)
    | Update(id: string, body: string, linked: Option<seq<string>>, now: int)
    | Delete(id: string)
    | Reset(campaign: string, inputs: seq<Input>, ids: seq<string>, now: int)
    | Sync(order: seq<string>)

  // ------------------------------------------------------------------------------------------
  // The transactions as functions of the tables.

  function Inserted(ps: seq<Pending>, source: string, campaign: string, at: int, next: nat): (r: seq<RefRow>)
    ensures |r| == |ps|
  {
    if ps == [] then []
    else [RefRow(next, source, Entry(campaign, ps[0], at))] + Inserted(ps[1..], source, campaign, at, next + 1)
  }

  function Replaced(t: Tables, id: string, ps: seq<Pending>): Tables
    requires id in t.notes
  {
    var note := t.notes[id];
    t.(references := Cleared(t.references, id) + Inserted(ps, id, note.campaign, note.updatedAt, t.nextRow),
       nextRow := t.nextRow + |ps|)
  }

  function BuildFor(notes: Notes, id: string, lenient: bool): (r: Result<seq<Pending>, StoreError>)
    requires id in notes
    ensures lenient ==> r.Ok?
  {
    Build(notes, notes[id].campaign, notes[id].body, notes[id].linked, lenient)
  }

  function ReplaceAll(t: Tables, ids: seq<string>, lenient: bool): Result<Tables, StoreError>
    requires forall i | 0 <= i < |ids| :: ids[i] in t.notes
    decreases |ids|
  {
    if ids == [] then Ok(t)
    else
      match BuildFor(t.notes, ids[0], lenient)
      case Err(e) => Err(e)
      case Ok(ps) => ReplaceAll(Replaced(t, ids[0], ps), ids[1..], lenient)
  }

  function InCampaign(notes: Notes, campaign: string): set<string> {
    set id | id in notes && notes[id].campaign == campaign
  }

  function WithInputs(notes: Notes, campaign: string, inputs: seq<Input>, ids: seq<string>, now: int): Notes
    requires |ids| == |inputs|
  {
    if inputs == [] then notes
    else
      var last := |inputs| - 1;
      WithInputs(notes, campaign, inputs[..last], ids[..last], now)
        [ids[last] := NoteRow(campaign, inputs[last].body, inputs[last].linked, now - last, now - last)]
  }

  ghost predicate NewIds(notes: Notes, ids: seq<string>) {
    && (forall i | 0 <= i < |ids| :: ids[i] !in notes)
    && forall i, j | 0 <= i < j < |ids| :: ids[i] != ids[j]
  }

  // What randomUUID promises about new ids, and that a sync visits every note.
  ghost predicate Enabled(t: Tables, op: Op) {
    match op
    case Create(id, campaign, _, _) =>
      id !in t.notes
      && forall other | other in t.notes && t.notes[other].campaign == campaign :: id !in Mentions(t.notes[other])
    case Reset(_, inputs, ids, _) =>
      |ids| == |inputs| && NewIds(t.notes, ids)
    case Sync(order) => (set i | 0 <= i < |order| :: order[i]) == t.notes.Keys
    case _ => true
  }

  function UpdatedRow(note: NoteRow, body: string, linked: Option<seq<string>>, now: int): NoteRow {
    var at := if now > note.updatedAt + 1 then now else note.updatedAt + 1;
    note.(body := body, linked := if linked.Some? then linked.value else note.linked, updatedAt := at)
  }

  function Removed(t: Tables, gone: set<string>): Tables {
    t.(notes := t.notes - gone, references := Cascade(t.references, gone))
  }

  ghost predicate KeyedInputs(notes: Notes, campaign: string, inputs: seq<Input>, ids: seq<string>, now: int,
                              after: Notes)
    requires |ids| == |inputs|
  {
    && (forall id | id in notes :: id in after && after[id] == notes[id])
    && (forall i | 0 <= i < |ids| ::
          ids[i] in after && after[ids[i]] == NoteRow(campaign, inputs[i].body, inputs[i].linked, now - i, now - i))
    && (forall id | id in after && id !in notes :: id in ids)
  }

  lemma {:induction false} InputKeys(notes: Notes, campaign: string, inputs: seq<Input>, ids: seq<string>, now: int)
    requires |ids| == |inputs|
    requires NewIds(notes, ids)
    ensures KeyedInputs(notes, campaign, inputs, ids, now, WithInputs(notes, campaign, inputs, ids, now))
  {
    hide KeyedInputs, NewIds, WithInputs;
    if inputs == [] {
      NoInputs(notes, campaign, inputs, ids, now);
    } else {
      var last := |inputs| - 1;
      assert NewIds(notes, ids[..last]) by { FewerNewIds(notes, ids, last); }
      LastInput(notes, campaign, inputs, ids, now);
      InputKeys(notes, campaign, inputs[..last], ids[..last], now);
      OneMoreInput(notes, campaign, inputs, ids, now, WithInputs(notes, campaign, inputs[..last], ids[..last], now));
    }
  }

  lemma NoInputs(notes: Notes, campaign: string, inputs: seq<Input>, ids: seq<string>, now: int)
    requires |ids| == |inputs| == 0
    ensures KeyedInputs(notes, campaign, inputs, ids, now, WithInputs(notes, campaign, inputs, ids, now))
  {
  }

  lemma LastInput(notes: Notes, campaign: string, inputs: seq<Input>, ids: seq<string>, now: int)
    requires |ids| == |inputs| > 0
    ensures var last := |inputs| - 1;
      WithInputs(notes, campaign, inputs, ids, now)
        == WithInputs(notes, campaign, inputs[..last], ids[..last], now)
             [ids[last] := NoteRow(campaign, inputs[last].body, inputs[last].linked, now - last, now - last)]
  {
  }

  lemma FewerNewIds(notes: Notes, ids: seq<string>, n: nat)
    requires NewIds(notes, ids) && n <= |ids|
    ensures NewIds(notes, ids[..n])
  {
  }

  lemma OneMoreInput(notes: Notes, campaign: string, inputs: seq<Input>, ids: seq<string>, now: int, before: Notes)
    requires |ids| == |inputs| > 0
    requires NewIds(notes, ids)
    requires KeyedInputs(notes, campaign, inputs[..|ids| - 1], ids[..|ids| - 1], now, before)
    ensures var last := |ids| - 1;
      KeyedInputs(notes, campaign, inputs, ids, now,
                  before[ids[last] := NoteRow(campaign, inputs[last].body, inputs[last].linked, now - last,
                    now - last)])
  {
    var last := |ids| - 1;
    forall i | 0 <= i < last ensures ids[i] == ids[..last][i] && inputs[i] == inputs[..last][i] {
    }
  }

  // The tables after a transaction; Err when it throws, and is rolled back.
  function Apply(t: Tables, op: Op): Result<Tables, StoreError>
    requires Enabled(t, op)
  {
    match op
    case Create(id, campaign, input, now) =>
      if campaign !in t.campaigns then Err(CampaignNotFound(campaign))
      else ReplaceAll(t.(notes := t.notes[id := NoteRow(campaign, input.body, input.linked, now, now)]), [id], false)
    case Update(id, body, linked, now) =>
      if id !in t.notes then Ok(t)
      else ReplaceAll(t.(notes := t.notes[id := UpdatedRow(t.notes[id], body, linked, now)]), [id], false)
    case Delete(id) => Ok(Removed(t, {id}))
    case Reset(campaign, inputs, ids, now) =>
      if campaign !in t.campaigns then Err(CampaignNotFound(campaign))
      else
        var left := Removed(t, InCampaign(t.notes, campaign));
        InputKeys(left.notes, campaign, inputs, ids, now);
        ReplaceAll(left.(notes := WithInputs(left.notes, campaign, inputs, ids, now)), ids, false)
    case Sync(order) =>
      assert forall i | 0 <= i < |order| :: order[i] in t.notes.Keys;
      ReplaceAll(t, order, true)
  }

  function Step(t: Tables, op: Op): Tables
    requires Enabled(t, op)
  {
    match Apply(t, op) case Ok(after) => after case Err(_) => t
  }

  ghost predicate Runs(trace: seq<Tables>, ops: seq<Op>) {
    && |trace| == |ops| + 1
    && forall i | 0 <= i < |ops| :: Enabled(trace[i], ops[i]) && trace[i + 1] == Step(trace[i], ops[i])
  }

  // ------------------------------------------------------------------------------------------
  // The transactions as the source runs them.

  class Database {
    var campaigns: set<string>
    var notes: Notes
    var references: seq<RefRow>
    var nextRow: nat

    function State(): Tables reads this {
      Tables(campaigns, notes, references, nextRow)
    }

    constructor (campaigns: set<string>)
      ensures State() == Tables(campaigns, map[], [], 0)
      ensures Indexed(notes, references)
    {
      this.campaigns, notes, references, nextRow := campaigns, map[], [], 0;
    }

    method BuildPendingReferences(body: string, linked: seq<string>, campaign: string, lenient: bool)
      returns (r: Result<seq<Pending>, StoreError>)
      ensures r == Build(notes, campaign, body, linked, lenient)
    {
      hide Text.Trim, Inline.Parse;
      var parsed := Inline.ParseInlineNoteReferences(body);
      if parsed.Err? && !lenient {
        return Err(BadBody(parsed.error));
      }
      var inlines := if parsed.Ok? then parsed.value else [];
      var references: seq<Pending> := [];
      var seen: set<string> := {};
      ghost var rest := linked;
      JoinedNone(BuildLinked(notes, campaign, linked, {}, lenient));
      var i := 0;
      while i < |linked|
        invariant 0 <= i <= |linked| && rest == linked[i..]
        invariant BuildLinked(notes, campaign, linked, {}, lenient)
               == Joined(references, BuildLinked(notes, campaign, rest, seen, lenient))
      {
        LinkedTurn(notes, campaign, references, rest, seen, lenient);
        assert rest[0] == linked[i] && rest[1..] == linked[i + 1..];
        var target := Text.Trim(linked[i]);
        i, rest := i + 1, rest[1..];
        if target == "" || target in seen {
          continue;
        }
        var error := TargetError(notes, target, campaign);
        if error.Some? {
          if !lenient {
            return Err(error.value);
          }
          continue;
        }
        seen := seen + {target};
        references := references + [LinkedTo(target)];
      }
      assert rest == [] && references + [] == references;
      ghost var first := references;
      ghost var left := inlines;
      i := 0;
      while i < |inlines|
        invariant 0 <= i <= |inlines| && left == inlines[i..]
        invariant Joined(first, BuildInline(notes, campaign, inlines, lenient))
               == Joined(references, BuildInline(notes, campaign, left, lenient))
      {
        InlineTurn(notes, campaign, references, left, lenient);
        assert left[0] == inlines[i] && left[1..] == inlines[i + 1..];
        var reference := inlines[i];
        i, left := i + 1, left[1..];
        var error := TargetError(notes, reference.target, campaign);
        if error.Some? {
          if !lenient {
            return Err(error.value);
          }
          continue;
        }
        references := references + [InlineTo(reference)];
      }
      assert left == [] && references + [] == references;
      return Ok(references);
    }

    method ReplaceNoteReferences(id: string, lenient: bool) returns (r: Result<seq<Entry>, StoreError>)
      requires id in notes
      modifies this`references, this`nextRow
      ensures BuildFor(notes, id, lenient).Err? ==>
        r == Err(BuildFor(notes, id, lenient).error) && State() == old(State())
      ensures BuildFor(notes, id, lenient).Ok? ==>
        && State() == Replaced(old(State()), id, BuildFor(notes, id, lenient).value)
        && r == Ok(Entries(notes[id].campaign, notes[id].updatedAt, BuildFor(notes, id, lenient).value))
    {
      hide Build;
      var note := notes[id];
      var built := BuildPendingReferences(note.body, note.linked, note.campaign, lenient);
      if built.Err? {
        return Err(built.error);
      }
      var ps := built.value;
      var persisted: seq<Entry> := [];
      references := Cleared(references, id);
      ghost var start := nextRow;
      ghost var base := references;
      ghost var rest := ps;
      var i := 0;
      while i < |ps|
        invariant 0 <= i <= |ps| && rest == ps[i..] && nextRow == start + i
        invariant base + Inserted(ps, id, note.campaign, note.updatedAt, start)
               == references + Inserted(rest, id, note.campaign, note.updatedAt, nextRow)
        invariant Entries(note.campaign, note.updatedAt, ps)
               == persisted + Entries(note.campaign, note.updatedAt, rest)
      {
        assert rest[0] == ps[i] && rest[1..] == ps[i + 1..];
        var entry := Entry(note.campaign, ps[i], note.updatedAt);
        references, nextRow := references + [RefRow(nextRow, id, entry)], nextRow + 1;
        persisted := persisted + [entry];
        i, rest := i + 1, rest[1..];
      }
      assert rest == [] && persisted + [] == persisted && references + [] == references;
      return Ok(persisted);
    }

    method ReplaceEach(ids: seq<string>, lenient: bool) returns (r: Result<(), StoreError>)
      requires forall i | 0 <= i < |ids| :: ids[i] in notes
      modifies this`references, this`nextRow
      ensures match ReplaceAll(old(State()), ids, lenient)
              case Ok(after) => r == Ok(()) && State() == after
              case Err(e) => r == Err(e)
    {
      hide Build;
      ghost var rest := ids;
      var i := 0;
      while i < |ids|
        invariant 0 <= i <= |ids| && rest == ids[i..]
        invariant forall j | 0 <= j < |rest| :: rest[j] in notes
        invariant ReplaceAll(old(State()), ids, lenient) == ReplaceAll(State(), rest, lenient)
      {
        assert rest[0] == ids[i] && rest[1..] == ids[i + 1..];
        assert forall j | 0 <= j < |rest[1..]| :: rest[1..][j] == rest[j + 1];
        var written := ReplaceNoteReferences(ids[i], lenient);
        if written.Err? {
          return Err(written.error);
        }
        i, rest := i + 1, rest[1..];
      }
      return Ok(());
    }

    method SyncNoteReferences(order: seq<string>)
      requires Enabled(State(), Sync(order))
      modifies this`references, this`nextRow
      ensures Ok(State()) == Apply(old(State()), Sync(order))
    {
      assert forall i | 0 <= i < |order| :: order[i] in notes.Keys;
      SyncSucceeds(State(), order);
      var _ := ReplaceEach(order, true);
    }

    method CreateNote(id: string, campaign: string, input: Input, now: int) returns (r: Result<Note, StoreError>)
      requires Enabled(State(), Create(id, campaign, input, now))
      modifies this
      ensures State() == Step(old(State()), Create(id, campaign, input, now))
      ensures match Apply(old(State()), Create(id, campaign, input, now))
              case Err(e) => r == Err(e)
              case Ok(_) =>
                && id in notes && BuildFor(notes, id, false).Ok?
                && r == Ok(Composed(id, notes[id], Entries(campaign, now, BuildFor(notes, id, false).value)))
    {
      hide Build;
      if campaign !in campaigns {
        return Err(CampaignNotFound(campaign));
      }
      ghost var before := State();
      var saved, row := notes, NoteRow(campaign, input.body, input.linked, now, now);
      notes := notes[id := row];
      OneNote(State(), id, false);
      var written := ReplaceNoteReferences(id, false);
      if written.Err? {
        notes := saved;
        return Err(written.error);
      }
      var note := ComposeNote(id, row, written.value);
      return Ok(note);
    }

    // A missing note is no error: the source answers null.
    method UpdateNote(id: string, body: string, linked: Option<seq<string>>, now: int)
      returns (r: Result<Option<Note>, StoreError>)
      modifies this
      ensures State() == Step(old(State()), Update(id, body, linked, now))
      ensures match Apply(old(State()), Update(id, body, linked, now))
              case Err(e) => r == Err(e)
              case Ok(_) =>
                if id !in old(notes) then r == Ok(None)
                else id in notes && BuildFor(notes, id, false).Ok? && r == Ok(Some(Composed(id, notes[id],
                       Entries(notes[id].campaign, notes[id].updatedAt, BuildFor(notes, id, false).value))))
    {
      hide Build;
      if id !in notes {
        return Ok(None);
      }
      var saved, row := notes, UpdatedRow(notes[id], body, linked, now);
      notes := notes[id := row];
      OneNote(State(), id, false);
      var written := ReplaceNoteReferences(id, false);
      if written.Err? {
        notes := saved;
        return Err(written.error);
      }
      var note := ComposeNote(id, row, written.value);
      return Ok(Some(note));
    }

    method DeleteNote(id: string) returns (deleted: bool)
      modifies this
      ensures deleted == (id in old(notes))
      ensures State() == Step(old(State()), Delete(id))
    {
      deleted := id in notes;
      notes, references := notes - {id}, Cascade(references, {id});
    }

    method ResetNotes(campaign: string, inputs: seq<Input>, ids: seq<string>, now: int)
      returns (r: Result<seq<Note>, StoreError>)
      requires Enabled(State(), Reset(campaign, inputs, ids, now))
      modifies this
      ensures State() == Step(old(State()), Reset(campaign, inputs, ids, now))
      ensures match Apply(old(State()), Reset(campaign, inputs, ids, now))
              case Err(e) => r == Err(e)
              case Ok(_) => r.Ok? && ComposedAll(ids, r.value)
    {
      hide Build;
      if campaign !in campaigns {
        return Err(CampaignNotFound(campaign));
      }
      var saved, savedReferences, savedNext := notes, references, nextRow;
      var gone := InCampaign(notes, campaign);
      notes, references := notes - gone, Cascade(references, gone);
      ghost var left := notes;
      InsertNotes(campaign, inputs, ids, now);
      InputKeys(left, campaign, inputs, ids, now);
      ghost var filled := notes;
      var written := ReplaceEach(ids, false);
      if written.Err? {
        notes, references, nextRow := saved, savedReferences, savedNext;
        return Err(written.error);
      }
      ReplaceAllKeepsNotes(Tables(campaigns, filled, Cascade(savedReferences, gone), savedNext), ids, false);
      var composed := ComposeAll(ids);
      return Ok(composed);
    }

    // The rows of a reset, stamped newest first.
    method InsertNotes(campaign: string, inputs: seq<Input>, ids: seq<string>, now: int)
      requires |ids| == |inputs|
      modifies this`notes
      ensures notes == WithInputs(old(notes), campaign, inputs, ids, now)
    {
      var i := 0;
      while i < |inputs|
        invariant 0 <= i <= |inputs|
        invariant notes == WithInputs(old(notes), campaign, inputs[..i], ids[..i], now)
      {
        assert inputs[..i + 1][..i] == inputs[..i] && ids[..i + 1][..i] == ids[..i];
        notes := notes[ids[i] := NoteRow(campaign, inputs[i].body, inputs[i].linked, now - i, now - i)];
        i := i + 1;
      }
      assert inputs[..i] == inputs && ids[..i] == ids;
    }

    // The references of one note as the database answers them; rows that tie come in any order.
    method SelectReferences(id: string) returns (answer: seq<Entry>)
      ensures Answers(RowsOf(references, id), answer)
    {
      answer := InOrder(RowsOf(references, id));
    }

    // The notes of these ids, composed with their references.
    ghost predicate ComposedAll(ids: seq<string>, composed: seq<Note>) reads this {
      && |composed| == |ids|
      && forall i | 0 <= i < |ids| ::
           && ids[i] in notes
           && composed[i] == Composed(ids[i], notes[ids[i]], composed[i].references)
           && Answers(RowsOf(references, ids[i]), composed[i].references)
    }

    method ComposeAll(ids: seq<string>) returns (composed: seq<Note>)
      requires forall i | 0 <= i < |ids| :: ids[i] in notes
      ensures ComposedAll(ids, composed)
    {
      hide LinkedIds, RowsOf, Answers;
      composed := [];
      var i := 0;
      while i < |ids|
        invariant 0 <= i <= |ids| && ComposedAll(ids[..i], composed)
      {
        var entries := SelectReferences(ids[i]);
        var note := ComposeNote(ids[i], notes[ids[i]], entries);
        composed, i := composed + [note], i + 1;
      }
      assert ids[..i] == ids;
    }

    // The references of a campaign as the database answers them.
    method SelectCampaignReferences(campaign: string) returns (answer: seq<RefRow>)
      ensures multiset(answer) == multiset(OfCampaign(references, campaign))
      ensures forall row :: row in answer <==> row in references && row.entry.campaign == campaign
    {
      OfCampaignIn(references, campaign);
      answer := OfCampaign(references, campaign);
    }

    // The notes of the target's campaign that list it among their linked ids, in the order of the list.
    method GetBacklinks(id: string, listed: seq<string>) returns (sources: seq<string>)
      requires Indexed(notes, references)
      requires id in notes ==> Listing(notes, notes[id].campaign, listed)
      ensures id !in notes ==> sources == []
      ensures id in notes ==>
        forall s :: s in sources <==>
          s in notes && notes[s].campaign == notes[id].campaign && id in Mentions(notes[s])
      ensures forall i, j | 0 <= i < j < |sources| :: sources[i] != sources[j]
      ensures forall i, j | 0 <= i < j < |sources| ::
        sources[i] in notes && sources[j] in notes && notes[sources[i]].updatedAt >= notes[sources[j]].updatedAt
    {
      hide Mentions, LinkedIds, Composed, Indexed, RowsOf, Linking;
      sources := [];
      if id !in notes {
        return;
      }
      var campaign := notes[id].campaign;
      var rows := SelectCampaignReferences(campaign);
      var grouped := GroupReferencesBySource(rows);
      LinkingNone(notes, listed, id);
      var i := 0;
      while i < |listed|
        invariant 0 <= i <= |listed|
        invariant sources == Linking(notes, listed, id, i)
      {
        LinkingOne(notes, listed, id, i);
        var s := listed[i];
        assert s in listed && s in InCampaign(notes, campaign);
        var note := ComposeNote(s, notes[s], if s in grouped then grouped[s] else []);
        assert GroupOf(grouped, s) == RowsOf(rows, s);
        SelectedRows(notes, references, rows, s);
        ComposedMentions(notes, references, s, id, GroupOf(grouped, s));
        if id in note.linkedIds {
          sources := sources + [s];
        }
        i := i + 1;
      }
      LinkingOfListing(notes, campaign, listed, id);
    }
  }

  // What the database may answer to a query for the notes of a campaign, newest first.
  ghost predicate Listing(notes: Notes, campaign: string, listed: seq<string>) {
    && (forall s :: s in listed <==> s in InCampaign(notes, campaign))
    && (forall i, j | 0 <= i < j < |listed| :: listed[i] != listed[j])
    && forall i, j | 0 <= i < j < |listed| && listed[i] in notes && listed[j] in notes ::
         notes[listed[i]].updatedAt >= notes[listed[j]].updatedAt
  }

  lemma LinkingNone(notes: Notes, listed: seq<string>, id: string)
    ensures Linking(notes, listed, id, 0) == []
  {
  }

  lemma LinkingOne(notes: Notes, listed: seq<string>, id: string, n: nat)
    requires n < |listed|
    ensures var linking := listed[n] in notes && id in Mentions(notes[listed[n]]);
      Linking(notes, listed, id, n + 1) == Linking(notes, listed, id, n) + if linking then [listed[n]] else []
  {
    hide Mentions;
  }

  lemma LinkingOfListing(notes: Notes, campaign: string, listed: seq<string>, id: string)
    requires Listing(notes, campaign, listed)
    ensures var r := Linking(notes, listed, id, |listed|);
      && (forall s :: s in r <==> s in notes && notes[s].campaign == campaign && id in Mentions(notes[s]))
      && (forall i, j | 0 <= i < j < |r| :: r[i] != r[j])
      && forall i, j | 0 <= i < j < |r| ::
           r[i] in notes && r[j] in notes && notes[r[i]].updatedAt >= notes[r[j]].updatedAt
  {
    hide Mentions, Linking;
    var r := Linking(notes, listed, id, |listed|);
    LinkingExactly(notes, listed, id, |listed|);
    assert listed[..|listed|] == listed;
    forall i, j | 0 <= i < j < |r|
      ensures r[i] != r[j] && r[i] in notes && r[j] in notes && notes[r[i]].updatedAt >= notes[r[j]].updatedAt
    {
      assert r[i] in r && r[j] in r && Precedes(listed, r[i], r[j]);
    }
  }

  // Of the first n listed notes, those that mention the id.
  ghost function Linking(notes: Notes, listed: seq<string>, id: string, n: nat): seq<string>
    requires n <= |listed|
  {
    if n == 0 then []
    else
      var s := listed[n - 1];
      Linking(notes, listed, id, n - 1) + if s in notes && id in Mentions(notes[s]) then [s] else []
  }

  // The i-th of them comes from a place in the list that no earlier one comes from.
  lemma {:induction false} LinkingExactly(notes: Notes, listed: seq<string>, id: string, n: nat)
    requires n <= |listed| && forall i, j | 0 <= i < j < |listed| :: listed[i] != listed[j]
    ensures var r := Linking(notes, listed, id, n);
      && (forall s :: s in r <==> s in listed[..n] && s in notes && id in Mentions(notes[s]))
      && (forall i, j | 0 <= i < j < |r| :: Precedes(listed, r[i], r[j]))
  {
    hide Mentions;
    if n > 0 {
      LinkingExactly(notes, listed, id, n - 1);
      assert listed[..n] == listed[..n - 1] + [listed[n - 1]];
      var before := Linking(notes, listed, id, n - 1);
      forall i | 0 <= i < |before| ensures Precedes(listed, before[i], listed[n - 1]) {
        assert before[i] in listed[..n - 1];
        var k :| 0 <= k < n - 1 && listed[k] == before[i];
      }
    } else {
      assert listed[..0] == [];
    }
  }

  ghost predicate Precedes(listed: seq<string>, a: string, b: string) {
    exists k, l :: 0 <= k < l < |listed| && listed[k] == a && listed[l] == b
  }

  // ------------------------------------------------------------------------------------------
  // Loop turns of the build.

  function Joined(first: seq<Pending>, rest: Result<seq<Pending>, StoreError>): Result<seq<Pending>, StoreError> {
    match rest case Ok(ps) => Ok(first + ps) case Err(_) => rest
  }

  lemma JoinedNone(rest: Result<seq<Pending>, StoreError>)
    ensures Joined([], rest) == rest
  {
    assert rest.Ok? ==> [] + rest.value == rest.value;
  }

  lemma LinkedTurn(notes: Notes, campaign: string, done: seq<Pending>, linked: seq<string>, seen: set<string>,
                   lenient: bool)
    requires linked != []
    ensures var target := Text.Trim(linked[0]);
      var error := TargetError(notes, target, campaign);
      Joined(done, BuildLinked(notes, campaign, linked, seen, lenient))
        == if target == "" || target in seen then Joined(done, BuildLinked(notes, campaign, linked[1..], seen, lenient))
           else if error.None? then
             Joined(done + [LinkedTo(target)], BuildLinked(notes, campaign, linked[1..], seen + {target}, lenient))
           else if lenient then Joined(done, BuildLinked(notes, campaign, linked[1..], seen, lenient))
           else Err(error.value)
  {
    hide Text.Trim;
    var target := Text.Trim(linked[0]);
    var more := BuildLinked(notes, campaign, linked[1..], seen + {target}, lenient);
    assert more.Ok? ==> done + ([LinkedTo(target)] + more.value) == (done + [LinkedTo(target)]) + more.value;
  }

  lemma InlineTurn(notes: Notes, campaign: string, done: seq<Pending>, references: seq<Inline.Reference>, lenient: bool)
    requires references != []
    ensures var first := references[0];
      var error := TargetError(notes, first.target, campaign);
      Joined(done, BuildInline(notes, campaign, references, lenient))
        == if error.None? then Joined(done + [InlineTo(first)], BuildInline(notes, campaign, references[1..], lenient))
           else if lenient then Joined(done, BuildInline(notes, campaign, references[1..], lenient))
           else Err(error.value)
  {
    var more := BuildInline(notes, campaign, references[1..], lenient);
    var first := [InlineTo(references[0])];
    assert more.Ok? ==> done + (first + more.value) == (done + first) + more.value;
  }

  lemma OneNote(t: Tables, id: string, lenient: bool)
    requires id in t.notes
    ensures ReplaceAll(t, [id], lenient) ==
      match BuildFor(t.notes, id, lenient) case Err(e) => Err(e) case Ok(ps) => Ok(Replaced(t, id, ps))
  {
    hide BuildFor;
    assert [id][1..] == [];
  }

  // ------------------------------------------------------------------------------------------
  // Every transaction keeps the index.

  lemma {:induction false} InsertedRows(ps: seq<Pending>, source: string, campaign: string, at: int, next: nat,
                                        id: string)
    ensures RowsOf(Inserted(ps, source, campaign, at, next), id)
         == if id == source then Entries(campaign, at, ps) else []
  {
    if ps != [] {
      InsertedRows(ps[1..], source, campaign, at, next + 1, id);
      var rest := Inserted(ps[1..], source, campaign, at, next + 1);
      assert Inserted(ps, source, campaign, at, next)[1..] == rest;
    }
  }

  lemma {:induction false} InsertedIn(ps: seq<Pending>, source: string, campaign: string, at: int, next: nat)
    ensures forall r | r in Inserted(ps, source, campaign, at, next) ::
      r.source == source && r.entry.pending.target in Targets(ps)
  {
    if ps != [] {
      InsertedIn(ps[1..], source, campaign, at, next + 1);
    }
  }

  // A successful rewrite of one note's rows indexes that note and leaves the others alone.
  lemma ReplacedIndexes(t: Tables, id: string, lenient: bool, missing: set<string>)
    requires IndexedBut(t.notes, t.references, missing) && id in t.notes && BuildFor(t.notes, id, lenient).Ok?
    ensures var after := Replaced(t, id, BuildFor(t.notes, id, lenient).value);
      after.notes == t.notes && IndexedBut(after.notes, after.references, missing - {id})
  {
    hide Build;
    var note, ps := t.notes[id], BuildFor(t.notes, id, lenient).value;
    var kept, added := Cleared(t.references, id), Inserted(ps, id, note.campaign, note.updatedAt, t.nextRow);
    if !lenient {
      StrictIsLenient(t.notes, note.campaign, note.body, note.linked);
    }
    ClearedIn(t.references, id);
    BuildTargets(t.notes, note);
    InsertedIn(ps, id, note.campaign, note.updatedAt, t.nextRow);
    var all: seq<RefRow> := kept + added;
    forall i | 0 <= i < |all| ensures all[i].source in t.notes && all[i].entry.pending.target in t.notes {
      assert all[i] in kept || all[i] in added;
    }
    forall x | x in t.notes && x !in missing - {id} ensures RowsOf(all, x) == Rebuilt(t.notes, x) {
      RowsConcat(kept, added, x);
      ClearedRows(t.references, id, x);
      InsertedRows(ps, id, note.campaign, note.updatedAt, t.nextRow, x);
    }
  }

  lemma {:induction false} ReplaceAllIndexes(t: Tables, ids: seq<string>, lenient: bool, missing: set<string>)
    requires forall i | 0 <= i < |ids| :: ids[i] in t.notes
    requires IndexedBut(t.notes, t.references, missing) && forall id | id in missing && id in t.notes :: id in ids
    ensures match ReplaceAll(t, ids, lenient)
            case Ok(after) =>
              Indexed(after.notes, after.references) && after.notes == t.notes && after.campaigns == t.campaigns
            case Err(_) => !lenient
    decreases |ids|
  {
    hide Build, Rebuilt;
    if ids != [] && BuildFor(t.notes, ids[0], lenient).Ok? {
      ReplacedIndexes(t, ids[0], lenient, missing);
      var next := Replaced(t, ids[0], BuildFor(t.notes, ids[0], lenient).value);
      assert forall i | 0 <= i < |ids[1..]| :: ids[1..][i] == ids[i + 1];
      ReplaceAllIndexes(next, ids[1..], lenient, missing - {ids[0]});
    }
  }

  lemma {:induction false} SyncSucceeds(t: Tables, ids: seq<string>)
    requires forall i | 0 <= i < |ids| :: ids[i] in t.notes
    ensures ReplaceAll(t, ids, true).Ok?
    decreases |ids|
  {
    hide Build;
    if ids != [] {
      assert forall i | 0 <= i < |ids[1..]| :: ids[1..][i] == ids[i + 1];
      SyncSucceeds(Replaced(t, ids[0], BuildFor(t.notes, ids[0], true).value), ids[1..]);
    }
  }

  lemma InsertedElsewhere(notes: Notes, after: Notes, campaign: string, other: string)
    requires forall id | id in notes :: id in after && after[id] == notes[id]
    requires forall id | id in after && id !in notes :: after[id].campaign == campaign
    requires other != campaign
    ensures SameTargets(notes, after, other)
  {
  }

  lemma ResetKeepsOthers(notes: Notes, rows: seq<RefRow>, campaign: string, after: Notes, added: set<string>)
    requires Indexed(notes, rows)
    requires forall id | id in notes :: id in after && after[id] == notes[id] && notes[id].campaign != campaign
    requires forall id | id in after && id !in notes :: after[id].campaign == campaign && id in added
    ensures IndexedBut(after, rows, added)
  {
    hide Build, SameTargets;
    forall id | id in after && id !in added ensures RowsOf(rows, id) == Rebuilt(after, id) {
      InsertedElsewhere(notes, after, campaign, notes[id].campaign);
      SameBuild(notes, after, notes[id]);
    }
  }

  lemma ResetKeepsIndex(t: Tables, left: Tables, op: Op, filled: Tables)
    requires op.Reset? && Enabled(t, op) && Indexed(t.notes, t.references)
    requires left == Removed(t, InCampaign(t.notes, op.campaign))
    requires filled == left.(notes := WithInputs(left.notes, op.campaign, op.inputs, op.ids, op.now))
    ensures forall i | 0 <= i < |op.ids| :: op.ids[i] in filled.notes
    ensures var r := ReplaceAll(filled, op.ids, false);
      r.Ok? ==> Indexed(r.value.notes, r.value.references)
  {
    hide Build, Mentions, Rebuilt, WithInputs, Cascade, Indexed, IndexedBut;
    DeleteKeepsIndex(t.notes, t.references, InCampaign(t.notes, op.campaign));
    InputKeys(left.notes, op.campaign, op.inputs, op.ids, op.now);
    var added := filled.notes.Keys - left.notes.Keys;
    ResetKeepsOthers(left.notes, left.references, op.campaign, filled.notes, added);
    ReplaceAllIndexes(filled, op.ids, false, added);
  }

  // Each transaction, thrown or not, leaves an indexed table indexed.
  lemma StepKeepsIndex(t: Tables, op: Op)
    requires Enabled(t, op) && Indexed(t.notes, t.references)
    ensures Indexed(Step(t, op).notes, Step(t, op).references)
  {
    hide Build, Mentions, Rebuilt, WithInputs, Cascade;
    match op {
      case Create(id, campaign, input, now) =>
        var row := NoteRow(campaign, input.body, input.linked, now, now);
        CreateKeepsOthers(t.notes, t.references, id, row);
        ReplaceAllIndexes(t.(notes := t.notes[id := row]), [id], false, {id});
      case Update(id, body, linked, now) =>
        if id in t.notes {
          var row := UpdatedRow(t.notes[id], body, linked, now);
          UpdateKeepsOthers(t.notes, t.references, id, row);
          ReplaceAllIndexes(t.(notes := t.notes[id := row]), [id], false, {id});
        }
      case Delete(id) =>
        DeleteKeepsIndex(t.notes, t.references, {id});
      case Reset(campaign, inputs, ids, now) =>
        var left := Removed(t, InCampaign(t.notes, campaign));
        ResetKeepsIndex(t, left, op, left.(notes := WithInputs(left.notes, campaign, inputs, ids, now)));
      case Sync(order) =>
        assert forall i | 0 <= i < |order| :: order[i] in t.notes.Keys;
        ReplaceAllIndexes(t, order, true, {});
    }
  }

  lemma {:induction false} ReplaceAllKeepsNotes(t: Tables, ids: seq<string>, lenient: bool)
    requires forall i | 0 <= i < |ids| :: ids[i] in t.notes
    ensures var r := ReplaceAll(t, ids, lenient);
      r.Ok? ==> r.value.notes == t.notes && r.value.campaigns == t.campaigns
    decreases |ids|
  {
    hide Build, Cleared;
    if ids != [] && BuildFor(t.notes, ids[0], lenient).Ok? {
      assert forall i | 0 <= i < |ids[1..]| :: ids[1..][i] == ids[i + 1];
      ReplaceAllKeepsNotes(Replaced(t, ids[0], BuildFor(t.notes, ids[0], lenient).value), ids[1..], lenient);
    }
  }

  // A create or an update that goes through writes its own note and its own reference rows only.
  lemma WriteTouchesOne(t: Tables, op: Op)
    requires Enabled(t, op) && (op.Create? || op.Update?) && Apply(t, op).Ok?
    ensures var after := Apply(t, op).value;
      && after.notes - {op.id} == t.notes - {op.id}
      && (op.Create? ==>
            && op.id in after.notes
            && after.notes[op.id] == NoteRow(op.campaign, op.input.body, op.input.linked, op.now, op.now))
      && forall other | other != op.id :: RowsOf(after.references, other) == RowsOf(t.references, other)
  {
    hide Build, Enabled;
    if op.Create? || op.id in t.notes {
      var row := if op.Create? then NoteRow(op.campaign, op.input.body, op.input.linked, op.now, op.now)
                 else UpdatedRow(t.notes[op.id], op.body, op.linked, op.now);
      var written := t.(notes := t.notes[op.id := row]);
      OneNote(written, op.id, false);
      var ps := BuildFor(written.notes, op.id, false).value;
      hide BuildFor, UpdatedRow;
      forall other | other != op.id
        ensures RowsOf(Replaced(written, op.id, ps).references, other) == RowsOf(t.references, other)
      {
        RowsConcat(Cleared(t.references, op.id), Inserted(ps, op.id, row.campaign, row.updatedAt, t.nextRow), other);
        ClearedRows(t.references, op.id, other);
        InsertedRows(ps, op.id, row.campaign, row.updatedAt, t.nextRow, other);
      }
    }
  }

  lemma SameRows(t: Tables, after: Tables, id: string)
    requires Indexed(t.notes, t.references) && Indexed(after.notes, after.references)
    requires id in t.notes && id in after.notes && after.notes[id] == t.notes[id]
    requires SameTargets(t.notes, after.notes, t.notes[id].campaign)
    ensures RowsOf(after.references, id) == RowsOf(t.references, id)
  {
    hide Build;
    SameBuild(t.notes, after.notes, t.notes[id]);
  }

  // A reset that goes through leaves the campaign with exactly its inputs, in their order of time,
  // and every other campaign with its notes and their references.
  lemma ResetExactly(t: Tables, op: Op)
    requires op.Reset? && Enabled(t, op) && Indexed(t.notes, t.references) && Apply(t, op).Ok?
    ensures var after := Apply(t, op).value;
      && (forall i | 0 <= i < |op.ids| ::
            && op.ids[i] in after.notes
            && after.notes[op.ids[i]] ==
              NoteRow(op.campaign, op.inputs[i].body, op.inputs[i].linked, op.now - i, op.now - i))
      && (forall id | id in after.notes && after.notes[id].campaign == op.campaign :: id in op.ids)
      && (forall id | id in t.notes && t.notes[id].campaign != op.campaign ::
            && id in after.notes && after.notes[id] == t.notes[id]
            && RowsOf(after.references, id) == RowsOf(t.references, id))
      && forall id | id in after.notes && after.notes[id].campaign != op.campaign :: id in t.notes
  {
    hide Build, Mentions, Rebuilt, WithInputs, Cascade, Indexed, SameTargets;
    var left := Removed(t, InCampaign(t.notes, op.campaign));
    var filled := left.(notes := WithInputs(left.notes, op.campaign, op.inputs, op.ids, op.now));
    InputKeys(left.notes, op.campaign, op.inputs, op.ids, op.now);
    ResetKeepsIndex(t, left, op, filled);
    ReplaceAllKeepsNotes(filled, op.ids, false);
    var after := Apply(t, op).value;
    assert after.notes == filled.notes;
    hide Apply, Removed;
    forall id | id in t.notes && t.notes[id].campaign != op.campaign
      ensures id in after.notes && after.notes[id] == t.notes[id]
        && RowsOf(after.references, id) == RowsOf(t.references, id)
    {
      assert id in left.notes && left.notes[id] == t.notes[id];
      ResetElsewhere(t.notes, left.notes, after.notes, op.campaign, t.notes[id].campaign);
      SameRows(t, after, id);
    }
  }

  lemma ResetElsewhere(notes: Notes, left: Notes, after: Notes, campaign: string, other: string)
    requires left == notes - InCampaign(notes, campaign) && other != campaign
    requires forall id | id in left :: id in after && after[id] == left[id]
    requires forall id | id in after && id !in left :: after[id].campaign == campaign
    ensures SameTargets(notes, after, other)
  {
  }

  // The reference rows are told apart by their ids: ascending ones, and new rows get new ones.
  ghost predicate Numbered(rows: seq<RefRow>, next: nat) {
    && (forall row | row in rows :: row.id < next)
    && forall i, j | 0 <= i < j < |rows| :: rows[i].id < rows[j].id
  }

  lemma NumberedHead(first: RefRow, rest: seq<RefRow>, next: nat)
    requires Numbered(rest, next) && first.id < next && forall row | row in rest :: first.id < row.id
    ensures Numbered([first] + rest, next)
  {
    assert forall i | 0 <= i < |rest| :: rest[i] in rest;
  }

  lemma NumberedRest(rows: seq<RefRow>, next: nat)
    requires Numbered(rows, next) && rows != []
    ensures Numbered(rows[1..], next) && rows[0].id < next && forall row | row in rows[1..] :: rows[0].id < row.id
  {
  }

  lemma {:induction false} ClearedNumbers(rows: seq<RefRow>, source: string, next: nat)
    requires Numbered(rows, next)
    ensures Numbered(Cleared(rows, source), next) && forall row | row in Cleared(rows, source) :: row in rows
  {
    hide Numbered;
    if rows != [] {
      NumberedRest(rows, next);
      ClearedNumbers(rows[1..], source, next);
      NumberedHead(rows[0], Cleared(rows[1..], source), next);
      assert [] + Cleared(rows[1..], source) == Cleared(rows[1..], source);
    }
  }

  lemma {:induction false} CascadeNumbers(rows: seq<RefRow>, gone: set<string>, next: nat)
    requires Numbered(rows, next)
    ensures Numbered(Cascade(rows, gone), next)
  {
    hide Numbered;
    if rows != [] {
      NumberedRest(rows, next);
      CascadeNumbers(rows[1..], gone, next);
      CascadeIn(rows[1..], gone);
      NumberedHead(rows[0], Cascade(rows[1..], gone), next);
      assert [] + Cascade(rows[1..], gone) == Cascade(rows[1..], gone);
    }
  }

  lemma {:induction false} InsertedNumbers(ps: seq<Pending>, source: string, campaign: string, at: int, next: nat)
    ensures Numbered(Inserted(ps, source, campaign, at, next), next + |ps|)
    ensures forall row | row in Inserted(ps, source, campaign, at, next) :: row.id >= next
  {
    if ps != [] {
      hide Numbered;
      var rest := Inserted(ps[1..], source, campaign, at, next + 1);
      InsertedNumbers(ps[1..], source, campaign, at, next + 1);
      NumberedHead(RefRow(next, source, Entry(campaign, ps[0], at)), rest, next + |ps|);
    }
  }

  lemma NumberedConcat(a: seq<RefRow>, b: seq<RefRow>, middle: nat, next: nat)
    requires Numbered(a, middle) && Numbered(b, next) && middle <= next && forall row | row in b :: row.id >= middle
    ensures Numbered(a + b, next)
  {
    assert forall i | 0 <= i < |a| :: a[i] in a;
    assert forall i | 0 <= i < |b| :: b[i] in b;
  }

  lemma {:induction false} ReplaceAllNumbers(t: Tables, ids: seq<string>, lenient: bool)
    requires Numbered(t.references, t.nextRow) && forall i | 0 <= i < |ids| :: ids[i] in t.notes
    ensures var r := ReplaceAll(t, ids, lenient); r.Ok? ==> Numbered(r.value.references, r.value.nextRow)
    decreases |ids|
  {
    hide Build, Numbered;
    if ids != [] && BuildFor(t.notes, ids[0], lenient).Ok? {
      var note, ps := t.notes[ids[0]], BuildFor(t.notes, ids[0], lenient).value;
      ClearedNumbers(t.references, ids[0], t.nextRow);
      InsertedNumbers(ps, ids[0], note.campaign, note.updatedAt, t.nextRow);
      NumberedConcat(Cleared(t.references, ids[0]), Inserted(ps, ids[0], note.campaign, note.updatedAt, t.nextRow),
                     t.nextRow, t.nextRow + |ps|);
      assert forall i | 0 <= i < |ids[1..]| :: ids[1..][i] == ids[i + 1];
      ReplaceAllNumbers(Replaced(t, ids[0], ps), ids[1..], lenient);
    }
  }

  // No transaction makes two reference rows share an id.
  lemma StepKeepsNumbers(t: Tables, op: Op)
    requires Enabled(t, op) && Numbered(t.references, t.nextRow)
    ensures Numbered(Step(t, op).references, Step(t, op).nextRow)
  {
    hide Build, Mentions, Rebuilt, WithInputs, Cascade, Numbered;
    match op {
      case Create(id, campaign, input, now) =>
        ReplaceAllNumbers(t.(notes := t.notes[id := NoteRow(campaign, input.body, input.linked, now, now)]), [id],
          false);
      case Update(id, body, linked, now) =>
        if id in t.notes {
          ReplaceAllNumbers(t.(notes := t.notes[id := UpdatedRow(t.notes[id], body, linked, now)]), [id], false);
        }
      case Delete(id) => CascadeNumbers(t.references, {id}, t.nextRow);
      case Reset(campaign, inputs, ids, now) =>
        var gone := InCampaign(t.notes, campaign);
        var left := Removed(t, gone);
        CascadeNumbers(t.references, gone, t.nextRow);
        InputKeys(left.notes, campaign, inputs, ids, now);
        ReplaceAllNumbers(left.(notes := WithInputs(left.notes, campaign, inputs, ids, now)), ids, false);
      case Sync(order) =>
        assert forall i | 0 <= i < |order| :: order[i] in t.notes.Keys;
        ReplaceAllNumbers(t, order, true);
    }
  }

  // The startup sync repairs any table that respects its foreign keys.
  lemma SyncIndexes(t: Tables, order: seq<string>)
    requires Enabled(t, Sync(order)) && KeysHold(t.notes, t.references)
    ensures var after := Step(t, Sync(order));
      after.notes == t.notes && Indexed(after.notes, after.references)
  {
    hide Build, Rebuilt;
    assert forall i | 0 <= i < |order| :: order[i] in t.notes.Keys;
    forall id | id in t.notes ensures id in order {
      assert id in (set i | 0 <= i < |order| :: order[i]);
    }
    ReplaceAllIndexes(t, order, true, t.notes.Keys);
  }

  // After a startup sync of any table and any run of transactions, another sync changes row ids only.
  lemma {:induction false} RunKeepsIndex(trace: seq<Tables>, ops: seq<Op>)
    requires Runs(trace, ops) && Indexed(trace[0].notes, trace[0].references)
    ensures var last := trace[|ops|];
      Indexed(last.notes, last.references)
      && forall order | Enabled(last, Sync(order)) ::
           var synced := Step(last, Sync(order));
           synced.notes == last.notes && forall id :: RowsOf(synced.references, id) == RowsOf(last.references, id)
  {
    hide Enabled, Step, Indexed;
    if ops != [] {
      var n := |ops| - 1;
      assert Runs(trace[..n + 1], ops[..n]);
      RunKeepsIndex(trace[..n + 1], ops[..n]);
      StepKeepsIndex(trace[n], ops[n]);
    }
    var last := trace[|ops|];
    forall order | Enabled(last, Sync(order))
      ensures var synced := Step(last, Sync(order));
        synced.notes == last.notes && forall id :: RowsOf(synced.references, id) == RowsOf(last.references, id)
    {
      assert KeysHold(last.notes, last.references) by { IndexedKeys(last); }
      SyncIndexes(last, order);
      RebuildChangesIdsOnly(last.notes, last.references, Step(last, Sync(order)).references);
    }
  }

  lemma IndexedKeys(t: Tables)
    requires Indexed(t.notes, t.references)
    ensures KeysHold(t.notes, t.references)
  {
  }

  // ------------------------------------------------------------------------------------------
  // When a write is accepted, and what each transaction comes to.

  lemma {:induction false} LinkedAccepted(notes: Notes, campaign: string, linked: seq<string>, seen: set<string>)
    requires forall t | t in seen :: ValidTarget(notes, t, campaign)
    ensures BuildLinked(notes, campaign, linked, seen, false).Ok?
       <==> forall t | t in LinkedMentions(linked) :: ValidTarget(notes, t, campaign)
  {
    hide Text.Trim;
    if linked != [] {
      var target := Text.Trim(linked[0]);
      var valid := target != "" && target !in seen && ValidTarget(notes, target, campaign);
      assert target != "" ==> target in LinkedMentions(linked);
      LinkedAccepted(notes, campaign, linked[1..], if valid then seen + {target} else seen);
    }
  }

  lemma {:induction false} InlineAccepted(notes: Notes, campaign: string, references: seq<Inline.Reference>)
    ensures BuildInline(notes, campaign, references, false).Ok?
       <==> forall t | t in InlineMentions(references) :: ValidTarget(notes, t, campaign)
  {
    if references != [] {
      assert references[0].target in InlineMentions(references);
      InlineAccepted(notes, campaign, references[1..]);
    }
  }

  // A strict write of a note goes through exactly when its body parses and every id it mentions is
  // a note of its campaign. An update that omits the linked ids therefore fails for as long as a
  // stored one has been deleted.
  lemma AcceptedExactly(notes: Notes, note: NoteRow)
    ensures Build(notes, note.campaign, note.body, note.linked, false).Ok?
       <==> Inline.Parse(note.body).Ok? && forall t | t in Mentions(note) :: ValidTarget(notes, t, note.campaign)
  {
    hide Text.Trim, Inline.Parse;
    LinkedAccepted(notes, note.campaign, note.linked, {});
    InlineAccepted(notes, note.campaign, InlineOf(note.body));
  }

  // An update is ordered after the version it replaces, whatever the clock says.
  lemma UpdateMovesForward(t: Tables, id: string, body: string, linked: Option<seq<string>>, now: int)
    requires id in t.notes
    ensures var r := Apply(t, Update(id, body, linked, now));
      r.Ok? ==>
        && id in r.value.notes && r.value.notes[id].updatedAt > t.notes[id].updatedAt
        && r.value.notes[id].updatedAt >= now && r.value.notes - {id} == t.notes - {id}
  {
    hide Build;
    OneNote(t.(notes := t.notes[id := UpdatedRow(t.notes[id], body, linked, now)]), id, false);
  }

  // What an update that goes through leaves in the notes table: the new text, the linked ids if any are
  // given, a later time, and nothing else.
  lemma UpdateExactly(t: Tables, id: string, body: string, linked: Option<seq<string>>, now: int)
    ensures var r := Apply(t, Update(id, body, linked, now));
      && (id !in t.notes ==> r == Ok(t))
      && (id in t.notes && r.Ok? ==>
            && r.value.campaigns == t.campaigns && id in r.value.notes
            && var was, row := t.notes[id], r.value.notes[id];
               && r.value.notes == t.notes[id := row]
               && row.body == body && row.linked == (match linked case Some(ids) => ids case None => was.linked)
               && row.campaign == was.campaign && row.createdAt == was.createdAt
               && row.updatedAt >= now && row.updatedAt > was.updatedAt
               && (row.updatedAt == now || row.updatedAt == was.updatedAt + 1))
  {
    hide Build;
    if id in t.notes {
      OneNote(t.(notes := t.notes[id := UpdatedRow(t.notes[id], body, linked, now)]), id, false);
    }
  }

  // A deletion always goes through. It takes the note and the references from and to it.
  lemma DeleteExactly(t: Tables, id: string)
    ensures var r := Apply(t, Delete(id));
      && r.Ok? && id !in r.value.notes && r.value.campaigns == t.campaigns
      && (forall other | other != id ::
            (other in r.value.notes <==> other in t.notes)
            && (other in t.notes ==> r.value.notes[other] == t.notes[other]))
      && forall row :: row in r.value.references <==>
           row in t.references && row.source != id && row.entry.pending.target != id
  {
    CascadeIn(t.references, {id});
  }

  lemma {:induction false} CascadeIn(rows: seq<RefRow>, gone: set<string>)
    ensures forall row :: row in Cascade(rows, gone) <==>
      row in rows && row.source !in gone && row.entry.pending.target !in gone
  {
    if rows != [] {
      CascadeIn(rows[1..], gone);
      assert forall row :: row in rows <==> row == rows[0] || row in rows[1..];
    }
  }

  // The ids a write refers to, in the order in which it looks them up.
  function Wanted(linked: seq<string>, references: seq<Inline.Reference>): seq<string> {
    if linked != [] then
      (if Text.Trim(linked[0]) == "" then [] else [Text.Trim(linked[0])]) + Wanted(linked[1..], references)
    else if references != [] then [references[0].target] + Wanted([], references[1..])
    else []
  }

  ghost predicate Sound(notes: Notes, campaign: string, id: string) {
    id in notes && notes[id].campaign == campaign
  }

  // What is wrong with such an id.
  ghost predicate Trouble(notes: Notes, campaign: string, id: string, e: StoreError) {
    if id !in notes then e == TargetNotFound(id)
    else notes[id].campaign != campaign && e == TargetInOtherCampaign(id)
  }

  // e is what is wrong with the first id that is not sound.
  ghost predicate FirstTrouble(notes: Notes, campaign: string, ids: seq<string>, e: StoreError) {
    exists i :: 0 <= i < |ids| && Trouble(notes, campaign, ids[i], e)
                && forall j | 0 <= j < i :: Sound(notes, campaign, ids[j])
  }

  lemma TroubleTurn(notes: Notes, campaign: string, id: string, rest: seq<string>, e: StoreError)
    ensures FirstTrouble(notes, campaign, [id] + rest, e) <==>
      if Sound(notes, campaign, id) then FirstTrouble(notes, campaign, rest, e) else Trouble(notes, campaign, id, e)
  {
    var ids := [id] + rest;
    if Sound(notes, campaign, id) && FirstTrouble(notes, campaign, rest, e) {
      var i :| 0 <= i < |rest| && Trouble(notes, campaign, rest[i], e)
               && forall j | 0 <= j < i :: Sound(notes, campaign, rest[j]);
      assert ids[i + 1] == rest[i] && forall j | 0 < j < i + 1 :: ids[j] == rest[j - 1];
    }
    if FirstTrouble(notes, campaign, ids, e) {
      var i :| 0 <= i < |ids| && Trouble(notes, campaign, ids[i], e)
               && forall j | 0 <= j < i :: Sound(notes, campaign, ids[j]);
      if i > 0 {
        assert ids[0] == id && ids[i] == rest[i - 1] && forall j | 0 <= j < i - 1 :: rest[j] == ids[j + 1];
      }
    }
    if !Sound(notes, campaign, id) && Trouble(notes, campaign, id, e) {
      assert ids[0] == id;
    }
  }

  // The two builds as one, over the ids still to be looked up.
  lemma {:induction false} WantedFails(notes: Notes, campaign: string, linked: seq<string>, seen: set<string>,
                                       references: seq<Inline.Reference>, e: StoreError)
    requires forall x | x in seen :: Sound(notes, campaign, x)
    ensures var first := BuildLinked(notes, campaign, linked, seen, false);
      (first == Err(e) || (first.Ok? && BuildInline(notes, campaign, references, false) == Err(e)))
      <==> FirstTrouble(notes, campaign, Wanted(linked, references), e)
    decreases |linked|, |references|
  {
    hide Text.Trim, FirstTrouble;
    if linked != [] {
      var id, rest := Text.Trim(linked[0]), Wanted(linked[1..], references);
      if id != "" {
        TroubleTurn(notes, campaign, id, rest, e);
        if id !in seen && Sound(notes, campaign, id) {
          WantedFails(notes, campaign, linked[1..], seen + {id}, references, e);
        }
      } else {
        assert [] + rest == rest;
      }
      if id == "" || id in seen {
        WantedFails(notes, campaign, linked[1..], seen, references, e);
      }
    } else if references != [] {
      TroubleTurn(notes, campaign, references[0].target, Wanted([], references[1..]), e);
      WantedFails(notes, campaign, [], seen, references[1..], e);
    } else {
      NoTrouble(notes, campaign, e);
    }
  }

  lemma NoTrouble(notes: Notes, campaign: string, e: StoreError)
    ensures !FirstTrouble(notes, campaign, [], e)
  {
  }

  // A strict write fails with exactly this error: that of its body, or else that of the first id it
  // refers to, linked ids before inline ones, that is no note or one of another campaign.
  lemma FailedExactly(notes: Notes, note: NoteRow, e: StoreError)
    ensures Build(notes, note.campaign, note.body, note.linked, false) == Err(e) <==>
      match Inline.Parse(note.body)
      case Err(error) => e == BadBody(error)
      case Ok(references) => FirstTrouble(notes, note.campaign, Wanted(note.linked, references), e)
  {
    hide Inline.Parse, FirstTrouble;
    WantedFails(notes, note.campaign, note.linked, {}, InlineOf(note.body), e);
  }

  // A strict write of this text and these linked ids is refused with this error.
  ghost predicate Refuses(notes: Notes, campaign: string, body: string, linked: seq<string>, e: StoreError) {
    match Inline.Parse(body)
    case Err(error) => e == BadBody(error)
    case Ok(references) => FirstTrouble(notes, campaign, Wanted(linked, references), e)
  }

  lemma SameTrouble(notes: Notes, other: Notes, campaign: string, ids: seq<string>, e: StoreError)
    requires notes.Keys == other.Keys && forall id | id in notes :: notes[id].campaign == other[id].campaign
    ensures FirstTrouble(notes, campaign, ids, e) ==> FirstTrouble(other, campaign, ids, e)
  {
    if FirstTrouble(notes, campaign, ids, e) {
      var i :| 0 <= i < |ids| && Trouble(notes, campaign, ids[i], e)
               && forall j | 0 <= j < i :: Sound(notes, campaign, ids[j]);
      assert Trouble(other, campaign, ids[i], e) && forall j | 0 <= j < i :: Sound(other, campaign, ids[j]);
    }
  }

  // When a transaction throws, and what: an unknown campaign, or the first refused text. Deletions and the
  // startup sync never throw.
  lemma ThrowsExactly(t: Tables, op: Op, e: StoreError)
    requires Enabled(t, op)
    ensures Apply(t, op) == Err(e) <==>
      match op
      case Create(id, campaign, input, now) =>
        if campaign !in t.campaigns then e == CampaignNotFound(campaign)
        else Refuses(t.notes[id := NoteRow(campaign, input.body, input.linked, now, now)], campaign, input.body,
                     input.linked, e)
      case Update(id, body, linked, _) =>
        id in t.notes
        && Refuses(t.notes, t.notes[id].campaign, body,
          match linked case Some(ids) => ids case None => t.notes[id].linked, e)
      case Reset(campaign, inputs, ids, now) =>
        if campaign !in t.campaigns then e == CampaignNotFound(campaign)
        else
          var filled := WithInputs(Removed(t, InCampaign(t.notes, campaign)).notes, campaign, inputs, ids, now);
          RefusesOne(filled, campaign, inputs, e)
      case _ => false
  {
    hide Build, Refuses, WithInputs, RefusesOne, Mentions;
    match op {
      case Create(id, campaign, input, now) =>
        var row := NoteRow(campaign, input.body, input.linked, now, now);
        OneNote(t.(notes := t.notes[id := row]), id, false);
        Refused(t.notes[id := row], row, e);
      case Update(id, body, linked, now) =>
        if id in t.notes {
          var row := UpdatedRow(t.notes[id], body, linked, now);
          var notes := t.notes[id := row];
          OneNote(t.(notes := notes), id, false);
          Refused(notes, row, e);
          RefusesSame(notes, t.notes, row.campaign, row.body, row.linked, e);
        }
      case Reset(campaign, inputs, ids, now) =>
        if campaign in t.campaigns {
          ResetThrows(t, campaign, inputs, ids, now, e);
        }
      case Sync(order) => SyncNeverThrows(t, order);
      case Delete(_) =>
    }
  }

  lemma SyncNeverThrows(t: Tables, order: seq<string>)
    requires Enabled(t, Sync(order))
    ensures Apply(t, Sync(order)).Ok?
  {
    assert forall i | 0 <= i < |order| :: order[i] in t.notes.Keys;
    SyncSucceeds(t, order);
  }

  lemma ResetThrows(t: Tables, campaign: string, inputs: seq<Input>, ids: seq<string>, now: int, e: StoreError)
    requires Enabled(t, Reset(campaign, inputs, ids, now)) && campaign in t.campaigns
    ensures var filled := WithInputs(Removed(t, InCampaign(t.notes, campaign)).notes, campaign, inputs, ids, now);
      Apply(t, Reset(campaign, inputs, ids, now)) == Err(e) <==> RefusesOne(filled, campaign, inputs, e)
  {
    hide Build, RefusesOne, WithInputs, Cascade;
    var left := Removed(t, InCampaign(t.notes, campaign));
    InputKeys(left.notes, campaign, inputs, ids, now);
    ReplaceFails(left.(notes := WithInputs(left.notes, campaign, inputs, ids, now)), campaign, inputs, ids, now, e);
  }

  lemma RefusesSame(notes: Notes, other: Notes, campaign: string, body: string, linked: seq<string>, e: StoreError)
    requires notes.Keys == other.Keys && forall id | id in notes :: notes[id].campaign == other[id].campaign
    ensures Refuses(notes, campaign, body, linked, e) <==> Refuses(other, campaign, body, linked, e)
  {
    hide Inline.Parse, FirstTrouble;
    if Inline.Parse(body).Ok? {
      SameTrouble(notes, other, campaign, Wanted(linked, Inline.Parse(body).value), e);
      SameTrouble(other, notes, campaign, Wanted(linked, Inline.Parse(body).value), e);
    }
  }

  lemma Refused(notes: Notes, note: NoteRow, e: StoreError)
    ensures Build(notes, note.campaign, note.body, note.linked, false) == Err(e)
       <==> Refuses(notes, note.campaign, note.body, note.linked, e)
  {
    hide Build, Inline.Parse, FirstTrouble;
    FailedExactly(notes, note, e);
  }

  // The first refused one of several texts is refused with this error.
  ghost predicate RefusesOne(notes: Notes, campaign: string, inputs: seq<Input>, e: StoreError) {
    exists i :: 0 <= i < |inputs| && Refuses(notes, campaign, inputs[i].body, inputs[i].linked, e)
                && forall j | 0 <= j < i :: Accepts(notes, campaign, inputs[j])
  }

  ghost predicate Accepts(notes: Notes, campaign: string, input: Input) {
    forall e :: !Refuses(notes, campaign, input.body, input.linked, e)
  }

  lemma RefusesOneTurn(notes: Notes, campaign: string, inputs: seq<Input>, e: StoreError)
    requires inputs != []
    ensures RefusesOne(notes, campaign, inputs, e) <==>
      || Refuses(notes, campaign, inputs[0].body, inputs[0].linked, e)
      || (Accepts(notes, campaign, inputs[0]) && RefusesOne(notes, campaign, inputs[1..], e))
  {
    hide Refuses, Accepts, RefusesOne;
    if RefusesOne(notes, campaign, inputs, e) && !Refuses(notes, campaign, inputs[0].body, inputs[0].linked, e) {
      RefusedLater(notes, campaign, inputs, e);
    }
    if Refuses(notes, campaign, inputs[0].body, inputs[0].linked, e) {
      RefusedFirst(notes, campaign, inputs, e);
    } else if Accepts(notes, campaign, inputs[0]) && RefusesOne(notes, campaign, inputs[1..], e) {
      RefusedAfter(notes, campaign, inputs, e);
    }
  }

  lemma RefusedFirst(notes: Notes, campaign: string, inputs: seq<Input>, e: StoreError)
    requires inputs != [] && Refuses(notes, campaign, inputs[0].body, inputs[0].linked, e)
    ensures RefusesOne(notes, campaign, inputs, e)
  {
    hide Refuses, Accepts;
  }

  lemma RefusedLater(notes: Notes, campaign: string, inputs: seq<Input>, e: StoreError)
    requires inputs != [] && RefusesOne(notes, campaign, inputs, e)
    requires !Refuses(notes, campaign, inputs[0].body, inputs[0].linked, e)
    ensures Accepts(notes, campaign, inputs[0]) && RefusesOne(notes, campaign, inputs[1..], e)
  {
    hide Refuses, Accepts;
    var rest := inputs[1..];
    var i :| 0 <= i < |inputs| && Refuses(notes, campaign, inputs[i].body, inputs[i].linked, e)
      && forall j | 0 <= j < i :: Accepts(notes, campaign, inputs[j]);
    assert rest[i - 1] == inputs[i] && forall j | 0 <= j < i - 1 :: rest[j] == inputs[j + 1];
  }

  lemma RefusedAfter(notes: Notes, campaign: string, inputs: seq<Input>, e: StoreError)
    requires inputs != [] && Accepts(notes, campaign, inputs[0]) && RefusesOne(notes, campaign, inputs[1..], e)
    ensures RefusesOne(notes, campaign, inputs, e)
  {
    hide Refuses, Accepts;
    var rest := inputs[1..];
    var i :| 0 <= i < |rest| && Refuses(notes, campaign, rest[i].body, rest[i].linked, e)
      && forall j | 0 <= j < i :: Accepts(notes, campaign, rest[j]);
    assert inputs[i + 1] == rest[i] && forall j | 0 < j < i + 1 :: inputs[j] == rest[j - 1];
  }

  lemma {:induction false} ReplaceFails(t: Tables, campaign: string, inputs: seq<Input>, ids: seq<string>, now: int,
                                        e: StoreError)
    requires |ids| == |inputs| && forall i | 0 <= i < |ids| ::
      ids[i] in t.notes && t.notes[ids[i]].campaign == campaign
      && t.notes[ids[i]].body == inputs[i].body && t.notes[ids[i]].linked == inputs[i].linked
    ensures ReplaceAll(t, ids, false) == Err(e) <==> RefusesOne(t.notes, campaign, inputs, e)
    decreases |ids|
  {
    hide Build, Refuses, RefusesOne, Replaced;
    if ids != [] {
      var note, build := t.notes[ids[0]], BuildFor(t.notes, ids[0], false);
      forall other ensures build == Err(other) <==>
        Refuses(t.notes, campaign, inputs[0].body, inputs[0].linked, other) {
        Refused(t.notes, note, other);
      }
      RefusesOneTurn(t.notes, campaign, inputs, e);
      if build.Ok? {
        var next := Replaced(t, ids[0], build.value);
        assert next.notes == t.notes by { ReplacedNotes(t, ids[0], build.value); }
        ReplaceFails(next, campaign, inputs[1..], ids[1..], now, e);
      } else {
        assert build == Err(build.error);
      }
    } else {
      NoneRefused(t.notes, campaign, e);
    }
  }

  lemma ReplacedNotes(t: Tables, id: string, ps: seq<Pending>)
    requires id in t.notes
    ensures Replaced(t, id, ps).notes == t.notes
  {
  }

  lemma NoneRefused(notes: Notes, campaign: string, e: StoreError)
    ensures !RefusesOne(notes, campaign, [], e)
  {
  }
}
