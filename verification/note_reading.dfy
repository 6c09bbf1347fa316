/**
 What readers make of the notes and note_references tables: the references of a campaign grouped by
 note, and notes composed with the ids they link to.
 */
module NoteReading {
  import opened NoteIndex

  datatype Note = Note(id: string, row: NoteRow, linkedIds: seq<string>, references: seq<Entry>)

  function FirstOccurrences(ids: seq<string>, seen: set<string>): seq<string> {
    if ids == [] then []
    else if ids[0] in seen then FirstOccurrences(ids[1..], seen)
    else [ids[0]] + FirstOccurrences(ids[1..], seen + {ids[0]})
  }

  function LinkedOnly(entries: seq<Entry>): set<string> {
    set e | e in entries && e.pending.kind == LinkedKind :: e.pending.target
  }

  function Confirmed(explicit: seq<string>, targets: set<string>): seq<string> {
    if explicit == [] then []
    else (if explicit[0] in targets then [explicit[0]] else []) + Confirmed(explicit[1..], targets)
  }

  function TargetList(entries: seq<Entry>): (r: seq<string>)
    ensures |r| == |entries|
  {
    if entries == [] then [] else [entries[0].pending.target] + TargetList(entries[1..])
  }

  // The stored linked ids that are still linked, then every other target; no id twice.
  function LinkedIds(explicit: seq<string>, entries: seq<Entry>): seq<string> {
    FirstOccurrences(Confirmed(explicit, LinkedOnly(entries)) + TargetList(entries), {})
  }

  function Composed(id: string, row: NoteRow, entries: seq<Entry>): Note {
    Note(id, row, LinkedIds(row.linked, entries), entries)
  }

  lemma ConfirmedTurn(out: seq<string>, explicit: seq<string>, targets: set<string>, more: seq<string>,
                      seen: set<string>)
    requires explicit != []
    ensures var id, rest := explicit[0], Confirmed(explicit[1..], targets) + more;
      out + FirstOccurrences(Confirmed(explicit, targets) + more, seen)
        == if id !in targets || id in seen then out + FirstOccurrences(rest, seen)
           else out + [id] + FirstOccurrences(rest, seen + {id})
  {
    hide FirstOccurrences;
    var rest := Confirmed(explicit[1..], targets) + more;
    if explicit[0] in targets {
      assert Confirmed(explicit, targets) + more == [explicit[0]] + rest;
      FirstOccurrencesTurn(explicit[0], rest, seen);
    } else {
      assert Confirmed(explicit, targets) + more == rest;
    }
    assert out + [explicit[0]] + FirstOccurrences(rest, seen + {explicit[0]})
        == out + ([explicit[0]] + FirstOccurrences(rest, seen + {explicit[0]}));
  }

  lemma LinkedIdsBegin(explicit: seq<string>, entries: seq<Entry>)
    ensures var all := Confirmed(explicit, LinkedOnly(entries)) + TargetList(entries);
      LinkedIds(explicit, entries) == [] + FirstOccurrences(all, {})
  {
  }

  lemma ConfirmedNone(targets: set<string>, more: seq<string>)
    ensures Confirmed([], targets) + more == more
  {
  }

  lemma NoTargets(out: seq<string>, seen: set<string>)
    ensures out + FirstOccurrences(TargetList([]), seen) == out
  {
  }

  lemma TargetsTurn(out: seq<string>, entries: seq<Entry>, seen: set<string>)
    requires entries != []
    ensures var id, rest := entries[0].pending.target, TargetList(entries[1..]);
      out + FirstOccurrences(TargetList(entries), seen)
        == if id in seen then out + FirstOccurrences(rest, seen)
           else out + [id] + FirstOccurrences(rest, seen + {id})
  {
    hide FirstOccurrences;
    var id, rest := entries[0].pending.target, TargetList(entries[1..]);
    FirstOccurrencesTurn(id, rest, seen);
    assert out + [id] + FirstOccurrences(rest, seen + {id}) == out + ([id] + FirstOccurrences(rest, seen + {id}));
  }

  lemma FirstOccurrencesTurn(id: string, rest: seq<string>, seen: set<string>)
    ensures FirstOccurrences([id] + rest, seen)
         == if id in seen then FirstOccurrences(rest, seen) else [id] + FirstOccurrences(rest, seen + {id})
  {
    assert ([id] + rest)[1..] == rest;
  }

  method ComposeNote(id: string, row: NoteRow, entries: seq<Entry>) returns (note: Note)
    ensures note == Composed(id, row, entries)
  {
    hide FirstOccurrences, TargetList, LinkedIds, LinkedOnly, Confirmed;
    var explicit, targets := row.linked, LinkedOnly(entries);
    var out: seq<string> := [];
    var seen: set<string> := {};
    ghost var rest := explicit;
    ghost var all := TargetList(entries);
    LinkedIdsBegin(explicit, entries);
    var i := 0;
    while i < |explicit|
      invariant 0 <= i <= |explicit| && rest == explicit[i..]
      invariant LinkedIds(explicit, entries) == out + FirstOccurrences(Confirmed(rest, targets) + all, seen)
    {
      ConfirmedTurn(out, rest, targets, all, seen);
      assert rest[0] == explicit[i] && rest[1..] == explicit[i + 1..];
      var target := explicit[i];
      i, rest := i + 1, rest[1..];
      if target !in targets || target in seen {
        continue;
      }
      out, seen := out + [target], seen + {target};
    }
    ConfirmedNone(targets, all);
    ghost var left := entries;
    i := 0;
    while i < |entries|
      invariant 0 <= i <= |entries| && left == entries[i..]
      invariant LinkedIds(explicit, entries) == out + FirstOccurrences(TargetList(left), seen)
    {
      TargetsTurn(out, left, seen);
      assert left[0] == entries[i] && left[1..] == entries[i + 1..];
      var target := entries[i].pending.target;
      i, left := i + 1, left[1..];
      if target in seen {
        continue;
      }
      out, seen := out + [target], seen + {target};
    }
    NoTargets(out, seen);
    return Composed(id, row, entries).(linkedIds := out);
  }

  function GroupOf(groups: map<string, seq<Entry>>, id: string): seq<Entry> {
    if id in groups then groups[id] else []
  }

  method GroupReferencesBySource(rows: seq<RefRow>) returns (groups: map<string, seq<Entry>>)
    ensures forall id :: GroupOf(groups, id) == RowsOf(rows, id)
  {
    groups := map[];
    ghost var rest := rows;
    var i := 0;
    while i < |rows|
      invariant 0 <= i <= |rows| && rest == rows[i..]
      invariant forall id :: RowsOf(rows, id) == GroupOf(groups, id) + RowsOf(rest, id)
    {
      hide RowsOf;
      assert rest[0] == rows[i] && rest[1..] == rows[i + 1..];
      var source, entry := rows[i].source, rows[i].entry;
      assert [] + [entry] == [entry];
      ghost var before := groups;
      if source in groups {
        groups := groups[source := groups[source] + [entry]];
      } else {
        groups := groups[source := [entry]];
      }
      forall id ensures RowsOf(rows, id) == GroupOf(groups, id) + RowsOf(rest[1..], id) {
        GroupTurn(before, groups, rest, id);
      }
      i, rest := i + 1, rest[1..];
    }
  }

  lemma GroupTurn(before: map<string, seq<Entry>>, after: map<string, seq<Entry>>, rest: seq<RefRow>, id: string)
    requires rest != []
    requires after == before[rest[0].source := GroupOf(before, rest[0].source) + [rest[0].entry]]
    ensures GroupOf(before, id) + RowsOf(rest, id) == GroupOf(after, id) + RowsOf(rest[1..], id)
  {
  }

  function OfCampaign(rows: seq<RefRow>, campaign: string): seq<RefRow> {
    if rows == [] then []
    else (if rows[0].entry.campaign == campaign then [rows[0]] else []) + OfCampaign(rows[1..], campaign)
  }

  lemma {:induction false} OfCampaignIn(rows: seq<RefRow>, campaign: string)
    ensures forall row :: row in OfCampaign(rows, campaign) <==> row in rows && row.entry.campaign == campaign
  {
    if rows != [] {
      OfCampaignIn(rows[1..], campaign);
      assert forall row :: row in rows <==> row == rows[0] || row in rows[1..];
    }
  }

  lemma {:induction false} OfCampaignRows(rows: seq<RefRow>, campaign: string, id: string)
    requires forall e | e in RowsOf(rows, id) :: e.campaign == campaign
    ensures RowsOf(OfCampaign(rows, campaign), id) == RowsOf(rows, id)
  {
    if rows != [] {
      hide RowsOf;
      RowsTurn(rows, id);
      assert rows[0].source == id ==> rows[0].entry in RowsOf(rows, id);
      assert forall e | e in RowsOf(rows[1..], id) :: e in RowsOf(rows, id);
      OfCampaignRows(rows[1..], campaign, id);
      var rest := OfCampaign(rows[1..], campaign);
      if rows[0].entry.campaign == campaign {
        assert ([rows[0]] + rest)[1..] == rest;
        RowsTurn([rows[0]] + rest, id);
      } else {
        assert [] + rest == rest;
      }
    }
  }

  lemma {:induction false} EntriesCampaign(campaign: string, at: int, ps: seq<Pending>)
    ensures forall e | e in Entries(campaign, at, ps) :: e.campaign == campaign
  {
    if ps != [] {
      EntriesCampaign(campaign, at, ps[1..]);
    }
  }

  lemma {:induction false} RowsIn(rows: seq<RefRow>, id: string)
    ensures forall e :: e in RowsOf(rows, id) <==> exists r :: r in rows && r.source == id && r.entry == e
  {
    if rows != [] {
      RowsIn(rows[1..], id);
      assert forall r :: r in rows <==> r == rows[0] || r in rows[1..];
    }
  }

  // However the database orders the references of the campaign, those of a note are all among them.
  lemma SelectedRows(notes: Notes, rows: seq<RefRow>, answer: seq<RefRow>, id: string)
    requires Indexed(notes, rows) && id in notes
    requires multiset(answer) == multiset(OfCampaign(rows, notes[id].campaign))
    ensures forall e :: e in RowsOf(answer, id) <==> e in RowsOf(rows, id)
  {
    hide Build, RowsOf, OfCampaign;
    var note := notes[id];
    var own := OfCampaign(rows, note.campaign);
    EntriesCampaign(note.campaign, note.updatedAt, Build(notes, note.campaign, note.body, note.linked, true).value);
    OfCampaignRows(rows, note.campaign, id);
    RowsIn(own, id);
    RowsIn(answer, id);
    forall r ensures r in answer <==> r in own {
      assert r in multiset(answer) <==> r in multiset(own);
    }
  }

  lemma {:induction false} FirstOccurrencesOnce(ids: seq<string>, seen: set<string>)
    ensures var r := FirstOccurrences(ids, seen);
      && (forall x :: x in r <==> x in ids && x !in seen)
      && forall i, j | 0 <= i < j < |r| :: r[i] != r[j]
  {
    if ids != [] {
      FirstOccurrencesOnce(ids[1..], if ids[0] in seen then seen else seen + {ids[0]});
      assert forall x :: x in ids <==> x == ids[0] || x in ids[1..];
    }
  }

  lemma {:induction false} ConfirmedIn(explicit: seq<string>, targets: set<string>)
    ensures forall x :: x in Confirmed(explicit, targets) <==> x in explicit && x in targets
  {
    if explicit != [] {
      ConfirmedIn(explicit[1..], targets);
      assert forall x :: x in explicit <==> x == explicit[0] || x in explicit[1..];
    }
  }

  lemma {:induction false} TargetListIn(entries: seq<Entry>)
    ensures forall x :: x in TargetList(entries) <==> exists e :: e in entries && e.pending.target == x
  {
    if entries != [] {
      TargetListIn(entries[1..]);
      assert forall e :: e in entries <==> e == entries[0] || e in entries[1..];
    }
  }

  // The linked ids of a composed note are the targets of its references, each once.
  lemma LinkedIdsExactly(explicit: seq<string>, entries: seq<Entry>)
    ensures var ids := LinkedIds(explicit, entries);
      && (forall x :: x in ids <==> exists e :: e in entries && e.pending.target == x)
      && forall i, j | 0 <= i < j < |ids| :: ids[i] != ids[j]
  {
    ConfirmedIn(explicit, LinkedOnly(entries));
    TargetListIn(entries);
    FirstOccurrencesOnce(Confirmed(explicit, LinkedOnly(entries)) + TargetList(entries), {});
  }

  // r holds ids of the list, each where it first occurs.
  ghost predicate ByFirst(r: seq<string>, ids: seq<string>) {
    forall i, j | 0 <= i < j < |r| :: OccursBefore(ids, r[i], r[j])
  }

  ghost predicate OccursBefore(ids: seq<string>, x: string, y: string) {
    exists k :: 0 <= k < |ids| && ids[k] == x && y !in ids[..k + 1]
  }

  lemma OccursBeforeMore(id: string, rest: seq<string>, x: string, y: string)
    requires (x == id && y != id) || (y != id && OccursBefore(rest, x, y))
    ensures OccursBefore([id] + rest, x, y)
  {
    var ids := [id] + rest;
    if x == id {
      assert ids[0] == x && ids[..1] == [id];
    } else {
      var k :| 0 <= k < |rest| && rest[k] == x && y !in rest[..k + 1];
      assert ids[k + 1] == x && ids[..k + 2] == [id] + rest[..k + 1];
    }
  }

  lemma {:induction false} FirstOccurrencesOrder(ids: seq<string>, seen: set<string>)
    ensures ByFirst(FirstOccurrences(ids, seen), ids)
  {
    if ids != [] {
      var more := if ids[0] in seen then seen else seen + {ids[0]};
      var rest := FirstOccurrences(ids[1..], more);
      FirstOccurrencesOrder(ids[1..], more);
      FirstOccurrencesOnce(ids[1..], more);
      assert ids == [ids[0]] + ids[1..];
      forall i, j | 0 <= i < j < |FirstOccurrences(ids, seen)|
        ensures OccursBefore(ids, FirstOccurrences(ids, seen)[i], FirstOccurrences(ids, seen)[j])
      {
        OccursBeforeMore(ids[0], ids[1..], FirstOccurrences(ids, seen)[i], FirstOccurrences(ids, seen)[j]);
      }
    }
  }

  lemma {:induction false} ConfirmedOrder(explicit: seq<string>, targets: set<string>, x: string, y: string)
    requires OccursBefore(Confirmed(explicit, targets), x, y) && y in targets
    ensures OccursBefore(explicit, x, y)
  {
    if explicit != [] {
      var rest := Confirmed(explicit[1..], targets);
      assert explicit == [explicit[0]] + explicit[1..];
      var k :| 0 <= k < |Confirmed(explicit, targets)| && Confirmed(explicit, targets)[k] == x
        && y !in Confirmed(explicit, targets)[..k + 1];
      if explicit[0] in targets {
        assert Confirmed(explicit, targets)[0] == explicit[0] != y;
        if k > 0 {
          assert rest[k - 1] == x && Confirmed(explicit, targets)[..k + 1] == [explicit[0]] + rest[..k];
          ConfirmedOrder(explicit[1..], targets, x, y);
        }
      } else {
        assert Confirmed(explicit, targets) == rest;
        ConfirmedOrder(explicit[1..], targets, x, y);
      }
      OccursBeforeMore(explicit[0], explicit[1..], x, y);
    }
  }

  lemma {:induction false} FirstOccurrencesConcat(a: seq<string>, b: seq<string>, seen: set<string>)
    ensures FirstOccurrences(a + b, seen)
         == FirstOccurrences(a, seen) + FirstOccurrences(b, seen + set x | x in a)
  {
    if a == [] {
      assert a + b == b && seen + (set x | x in a) == seen;
    } else {
      assert (a + b)[1..] == a[1..] + b;
      var more := if a[0] in seen then seen else seen + {a[0]};
      SeenMore(a, seen);
      FirstOccurrencesConcat(a[1..], b, more);
      if a[0] !in seen {
        var rest, tail := FirstOccurrences(a[1..], more), FirstOccurrences(b, seen + set x | x in a);
        assert [a[0]] + (rest + tail) == [a[0]] + rest + tail;
      }
    }
  }

  lemma SeenMore(a: seq<string>, seen: set<string>)
    requires a != []
    ensures (if a[0] in seen then seen else seen + {a[0]}) + (set x | x in a[1..]) == seen + set x | x in a
  {
    assert a == [a[0]] + a[1..];
  }

  lemma FirstPart(a: seq<string>, b: seq<string>)
    ensures var ids, n := FirstOccurrences(a + b, {}), |FirstOccurrences(a, {})|;
      && n <= |ids| && ids[..n] == FirstOccurrences(a, {}) && ids[n..] == FirstOccurrences(b, set x | x in a)
      && forall i | 0 <= i < |ids| :: i < n <==> ids[i] in a
  {
    FirstOccurrencesConcat(a, b, {});
    FirstOccurrencesOnce(a, {});
    FirstOccurrencesOnce(b, set x | x in a);
    var ids, first := FirstOccurrences(a + b, {}), FirstOccurrences(a, {});
    var n := |first|;
    assert {} + (set x | x in a) == set x | x in a;
    hide FirstOccurrences;
    forall i | 0 <= i < |ids| ensures i < n <==> ids[i] in a {
      if i < n {
        assert ids[i] == first[i] && first[i] in first;
      } else {
        assert ids[i] == ids[n..][i - n] && ids[n..][i - n] in ids[n..];
      }
    }
  }

  lemma ConfirmedByFirst(explicit: seq<string>, targets: set<string>)
    ensures ByFirst(FirstOccurrences(Confirmed(explicit, targets), {}), explicit)
  {
    var confirmed := Confirmed(explicit, targets);
    var first := FirstOccurrences(confirmed, {});
    FirstOccurrencesOrder(confirmed, {});
    FirstOccurrencesOnce(confirmed, {});
    ConfirmedIn(explicit, targets);
    forall i, j | 0 <= i < j < |first| ensures OccursBefore(explicit, first[i], first[j]) {
      assert first[j] in first;
      ConfirmedOrder(explicit, targets, first[i], first[j]);
    }
  }

  // The order of the linked ids: first the stored ids that a reference of the linked kind still confirms,
  // in their order; then the other targets, in the order of the references.
  lemma LinkedIdsOrder(explicit: seq<string>, entries: seq<Entry>) returns (n: nat)
    ensures var ids := LinkedIds(explicit, entries);
      && n <= |ids| && ByFirst(ids[..n], explicit) && ByFirst(ids[n..], TargetList(entries))
      && forall i | 0 <= i < |ids| ::
           i < n <==> ids[i] in explicit
                      && exists e :: e in entries && e.pending.kind == LinkedKind && e.pending.target == ids[i]
  {
    hide FirstOccurrences, Confirmed, TargetList, ByFirst;
    var targets := LinkedOnly(entries);
    var confirmed, all := Confirmed(explicit, targets), TargetList(entries);
    n := |FirstOccurrences(confirmed, {})|;
    FirstPart(confirmed, all);
    ConfirmedByFirst(explicit, targets);
    FirstOccurrencesOrder(all, set x | x in confirmed);
    ConfirmedIn(explicit, targets);
    assert forall x :: x in targets <==>
      exists e :: e in entries && e.pending.kind == LinkedKind && e.pending.target == x;
    assert forall x :: x in confirmed <==> x in explicit && x in targets;
  }

  lemma {:induction false} EntryTargets(campaign: string, at: int, ps: seq<Pending>)
    ensures forall x :: x in Targets(ps) <==> exists e :: e in Entries(campaign, at, ps) && e.pending.target == x
  {
    if ps != [] {
      EntryTargets(campaign, at, ps[1..]);
      var all, rest := Entries(campaign, at, ps), Entries(campaign, at, ps[1..]);
      assert forall e :: e in all <==> e == Entry(campaign, ps[0], at) || e in rest;
    }
  }

  // In an indexed table a composed note links to an existing note of its campaign exactly when its
  // text or its stored ids mention it.
  lemma ComposedMentions(notes: Notes, rows: seq<RefRow>, source: string, target: string, entries: seq<Entry>)
    requires Indexed(notes, rows) && source in notes && target in notes
      && notes[target].campaign == notes[source].campaign
    requires forall e :: e in entries <==> e in RowsOf(rows, source)
    ensures target in Composed(source, notes[source], entries).linkedIds <==> target in Mentions(notes[source])
  {
    hide Build, Mentions, LinkedIds;
    var note := notes[source];
    LinkedIdsExactly(note.linked, entries);
    EntryTargets(note.campaign, note.updatedAt, Build(notes, note.campaign, note.body, note.linked, true).value);
    BuildTargets(notes, note);
  }
}
