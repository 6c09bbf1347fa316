/**
 The order in which the tenant API reads the references of a note: linked ones first, then by
 position in the body, then by time. References that tie on all three may come in any order.
 */
module NoteOrder {
  import opened NoteIndex
  import Inline = NoteReferences

  predicate Before(a: Entry, b: Entry) {
    if a.pending.kind != b.pending.kind then a.pending.kind == LinkedKind
    else if Place(a) != Place(b) then Place(a) < Place(b)
    else a.at <= b.at
  }

  function Place(e: Entry): int {
    if e.pending.position.Some? then e.pending.position.value else -1
  }

  ghost predicate Sorted(es: seq<Entry>) {
    forall i, j | 0 <= i < j < |es| :: Before(es[i], es[j])
  }

  // Every answer the database may give for these rows.
  ghost predicate Answers(rows: seq<Entry>, answer: seq<Entry>) {
    multiset(answer) == multiset(rows) && Sorted(answer)
  }

  function Insert(es: seq<Entry>, e: Entry): seq<Entry> {
    if es == [] || Before(es[|es| - 1], e) then es + [e]
    else Insert(es[..|es| - 1], e) + [es[|es| - 1]]
  }

  function InOrder(rows: seq<Entry>): (r: seq<Entry>)
    ensures Answers(rows, r)
  {
    if rows == [] then []
    else
      var last := |rows| - 1;
      InsertAnswers(InOrder(rows[..last]), rows[last]);
      assert rows == rows[..last] + [rows[last]];
      Insert(InOrder(rows[..last]), rows[last])
  }

  lemma {:induction false} InsertAnswers(es: seq<Entry>, e: Entry)
    requires Sorted(es)
    ensures Answers(es + [e], Insert(es, e))
  {
    hide Before;
    if es == [] || Before(es[|es| - 1], e) {
      Above(es, e);
    } else {
      var rest, last := es[..|es| - 1], es[|es| - 1];
      InsertAnswers(rest, e);
      assert es == rest + [last];
      AboveAll(rest, e, last, Insert(rest, e));
    }
  }

  lemma Above(es: seq<Entry>, e: Entry)
    requires Sorted(es) && (es == [] || Before(es[|es| - 1], e))
    ensures Sorted(es + [e])
  {
  }

  lemma AboveAll(rest: seq<Entry>, e: Entry, last: Entry, r: seq<Entry>)
    requires Answers(rest + [e], r) && (forall i | 0 <= i < |rest| :: Before(rest[i], last)) && !Before(last, e)
    ensures Sorted(r + [last])
  {
    forall i | 0 <= i < |r| ensures Before(r[i], last) {
      assert r[i] in multiset(r) && multiset(r) == multiset(rest + [e]);
      assert r[i] in rest + [e];
    }
  }

  // Links, which all tie, and then references of strictly increasing position.
  ghost predicate Shaped(stored: seq<Entry>, n: nat) {
    && n <= |stored|
    && (forall i | 0 <= i < |stored| :: stored[i].pending.kind == LinkedKind <==> i < n)
    && (forall i, j | 0 <= i < j < n :: Place(stored[i]) == Place(stored[j]) && stored[i].at == stored[j].at)
    && forall i, j | n <= i < j < |stored| :: Place(stored[i]) < Place(stored[j])
  }

  lemma {:induction false} TailStays(stored: seq<Entry>, n: nat, answer: seq<Entry>, m: nat)
    requires Shaped(stored, n) && Answers(stored, answer) && n <= m <= |stored|
    ensures |answer| == |stored| && multiset(answer[..m]) == multiset(stored[..m])
    ensures forall i | m <= i < |stored| :: answer[i] == stored[i]
    decreases |stored| - m
  {
    hide Shaped, Sorted;
    assert |multiset(answer)| == |multiset(stored)|;
    if m < |stored| {
      TailStays(stored, n, answer, m + 1);
      LastStays(stored, n, answer, m);
      UpTo(stored, m);
      UpTo(answer, m);
    } else {
      assert answer[..m] == answer && stored[..m] == stored;
    }
  }

  lemma LastStays(stored: seq<Entry>, n: nat, answer: seq<Entry>, m: nat)
    requires Shaped(stored, n) && Sorted(answer) && n <= m < |stored| == |answer|
    requires multiset(answer[..m + 1]) == multiset(stored[..m + 1])
    ensures answer[m] == stored[m]
  {
    assert answer[..m + 1][m] in multiset(answer[..m + 1]) && stored[..m + 1][m] in multiset(stored[..m + 1]);
    var k :| 0 <= k <= m && stored[..m + 1][k] == answer[..m + 1][m];
    var l :| 0 <= l <= m && answer[..m + 1][l] == stored[..m + 1][m];
    assert stored[k] == answer[m] && answer[l] == stored[m];
  }

  lemma UpTo(es: seq<Entry>, m: nat)
    requires m < |es|
    ensures multiset(es[..m]) == multiset(es[..m + 1]) - multiset{es[m]}
  {
    assert es[..m + 1] == es[..m] + [es[m]];
  }

  lemma ShapedAnswers(stored: seq<Entry>, n: nat, answer: seq<Entry>)
    requires Shaped(stored, n) && |answer| == |stored|
    requires multiset(answer[..n]) == multiset(stored[..n]) && answer[n..] == stored[n..]
    ensures Answers(stored, answer)
  {
    assert multiset(answer) == multiset(stored) by {
      assert answer == answer[..n] + answer[n..] && stored == stored[..n] + stored[n..];
      hide Shaped;
    }
    forall i, j | 0 <= i < j < |answer| ensures Before(answer[i], answer[j]) {
      var k := Origin(stored, n, answer, i);
      var l := Origin(stored, n, answer, j);
    }
  }

  // Where an element of the answer comes from: a link from the links, any other from its own place.
  lemma Origin(stored: seq<Entry>, n: nat, answer: seq<Entry>, i: nat) returns (k: nat)
    requires n <= |stored| == |answer| && i < |answer|
    requires multiset(answer[..n]) == multiset(stored[..n]) && answer[n..] == stored[n..]
    ensures k < |stored| && answer[i] == stored[k] && (k < n <==> i < n) && (i >= n ==> k == i)
  {
    if i < n {
      assert answer[..n][i] in multiset(answer[..n]);
      k :| 0 <= k < n && stored[..n][k] == answer[..n][i];
    } else {
      k := i;
      assert answer[n..][i - n] == stored[n..][i - n];
    }
  }

  // In an indexed table the answers are the stored references with the linked ones, which come first,
  // in any order: the order of the inline ones is never open.
  lemma AnswersExactly(notes: Notes, rows: seq<RefRow>, id: string, answer: seq<Entry>) returns (n: nat)
    requires Indexed(notes, rows) && id in notes
    ensures var stored := RowsOf(rows, id);
      && n <= |stored| && (forall i | 0 <= i < |stored| :: stored[i].pending.kind == LinkedKind <==> i < n)
      && (Answers(stored, answer) <==>
            |answer| == |stored| && multiset(answer[..n]) == multiset(stored[..n]) && answer[n..] == stored[n..])
  {
    hide Build, Answers, BuildLinked, BuildInline, RowsOf, InlineOf;
    var note, stored := notes[id], RowsOf(rows, id);
    var linked, inlines := BuildOnce(notes, note);
    n := |linked|;
    EntriesShaped(note.campaign, note.updatedAt, linked, inlines, InlineOf(note.body));
    hide LinksOnce, InlinesOnce;
    if Answers(stored, answer) {
      TailStays(stored, n, answer, n);
    }
    if |answer| == |stored| && multiset(answer[..n]) == multiset(stored[..n]) && answer[n..] == stored[n..] {
      ShapedAnswers(stored, n, answer);
    }
  }

  lemma EntriesShaped(campaign: string, at: int, linked: seq<Pending>, inlines: seq<Pending>,
                      references: seq<Inline.Reference>)
    requires LinksOnce(linked, {}) && InlinesOnce(inlines, references)
    ensures Shaped(Entries(campaign, at, linked + inlines), |linked|)
  {
    hide Entries;
    EntriesAt(campaign, at, linked + inlines);
  }

  lemma {:induction false} EntriesAt(campaign: string, at: int, ps: seq<Pending>)
    ensures var es := Entries(campaign, at, ps);
      |es| == |ps| && forall i | 0 <= i < |ps| :: es[i] == Entry(campaign, ps[i], at)
  {
    if ps != [] {
      EntriesAt(campaign, at, ps[1..]);
    }
  }
}
