/**
 Inline references in note bodies: ![[noteId]], ![[noteId|label]], ![[noteId|label|qualifier]].
 */
module NoteReferences {
  import opened Outcomes
  import opened Text
  import Utf16

  datatype Reference = Reference(target: string, caption: Option<string>, qualifier: Option<string>, position: nat)

  datatype ParseError = MissingClose(position: nat) | Malformed(position: nat, content: string)

  datatype Mark = Open | Close

  // The mark ![[ or ]] stands in s at index i.
  predicate MarkAt(s: string, i: int, mark: Mark) {
    match mark
    case Open => 0 <= i < |s| - 2 && s[i] == '!' && s[i + 1] == '[' && s[i + 2] == '['
    case Close => 0 <= i < |s| - 1 && s[i] == ']' && s[i + 1] == ']'
  }

  // String.prototype.indexOf: the least occurrence at or after from.
  function IndexOf(s: string, mark: Mark, from: nat): (r: Option<nat>)
    ensures r.Some? ==> from <= r.value && MarkAt(s, r.value, mark)
    ensures r.Some? ==> forall i | from <= i < r.value :: !MarkAt(s, i, mark)
    ensures r.None? ==> forall i | from <= i :: !MarkAt(s, i, mark)
    decreases |s| - from
  {
    if from >= |s| then None
    else if MarkAt(s, from, mark) then Some(from)
    else IndexOf(s, mark, from + 1)
  }

  function TrimAll(parts: seq<string>): (r: seq<string>)
    ensures |r| == |parts|
  {
    if parts == [] then [] else [Trim(parts[0])] + TrimAll(parts[1..])
  }

  // One to three non-blank fields on one line.
  function Fields(content: string): (r: Option<seq<string>>)
    ensures r.Some? ==> 1 <= |r.value| <= 3
  {
    var parts := TrimAll(Split('|', content));
    if '\n' in content || '\r' in content || |parts| > 3 || "" in parts then None else Some(parts)
  }

  // The content between the marks holds these fields exactly when it is on one line and is one to three
  // texts joined by bars, each of which is its field once it is trimmed, and none is blank.
  lemma FieldsExactly(content: string, fields: seq<string>)
    ensures Fields(content) == Some(fields) <==>
      && '\n' !in content && '\r' !in content
      && exists parts :: |parts| == |fields| && Holds(content, fields, parts)
  {
    hide Trim;
    var split := Split('|', content);
    JoinOfSplit('|', content);
    TrimmedAt(split);
    if Fields(content) == Some(fields) {
      assert |split| == |fields| && Holds(content, fields, split);
    }
    if parts :| |parts| == |fields| && Holds(content, fields, parts) {
      SplitOfJoin('|', parts);
      assert split == parts && TrimAll(split) == fields;
      assert "" !in fields;
    }
  }

  ghost predicate Holds(content: string, fields: seq<string>, parts: seq<string>)
    requires |parts| == |fields|
  {
    && 1 <= |parts| <= 3 && Join('|', parts) == content
    && (forall part | part in parts :: '|' !in part)
    && forall i | 0 <= i < |parts| :: Trim(parts[i]) == fields[i] && fields[i] != ""
  }

  lemma {:induction false} TrimmedAt(parts: seq<string>)
    ensures forall i | 0 <= i < |parts| :: TrimAll(parts)[i] == Trim(parts[i])
  {
    if parts != [] {
      TrimmedAt(parts[1..]);
    }
  }

  function ToReference(fields: seq<string>, position: nat): (r: Reference)
    requires 1 <= |fields| <= 3
    ensures r.position == position
  {
    Reference(fields[0], if |fields| > 1 then Some(fields[1]) else None,
              if |fields| > 2 then Some(fields[2]) else None, position)
  }

  function ParseFrom(body: string, cursor: nat): Result<seq<Reference>, ParseError>
    decreases |body| - cursor
  {
    match IndexOf(body, Open, cursor)
    case None => Ok([])
    case Some(start) =>
      match IndexOf(body, Close, start + 3)
      case None => Err(MissingClose(start))
      case Some(end) =>
        match Fields(body[start + 3..end])
        case None => Err(Malformed(start, body[start + 3..end]))
        case Some(fields) => Prepend([ToReference(fields, start)], ParseFrom(body, end + 2))
  }

  function Prepend(first: seq<Reference>, rest: Result<seq<Reference>, ParseError>)
    : Result<seq<Reference>, ParseError>
  {
    match rest
    case Ok(references) => Ok(first + references)
    case Err(_) => rest
  }

  // The references with positions that count scalar values.
  function Scan(body: string): Result<seq<Reference>, ParseError> {
    ParseFrom(body, 0)
  }

  function InUnits(body: string, references: seq<Reference>): (r: seq<Reference>)
    ensures |r| == |references|
    ensures forall i | 0 <= i < |r| :: r[i] == references[i].(position := Utf16.Offset(body, references[i].position))
  {
    if references == [] then []
    else
      [references[0].(position := Utf16.Offset(body, references[0].position))] + InUnits(body, references[1..])
  }

  // The source's answer: its positions count UTF-16 code units.
  function Parse(body: string): (r: Result<seq<Reference>, ParseError>)
    ensures r.Ok? <==> Scan(body).Ok?
  {
    match Scan(body)
    case Ok(references) => Ok(InUnits(body, references))
    case Err(MissingClose(start)) => Err(MissingClose(Utf16.Offset(body, start)))
    case Err(Malformed(start, content)) => Err(Malformed(Utf16.Offset(body, start), content))
  }

  lemma NothingLeft(body: string, from: nat)
    requires forall k | from <= k :: !MarkAt(body, k, Open)
    ensures ParseFrom(body, from) == Ok([])
  {
  }

  lemma ParseStep(body: string, cursor: nat, start: nat, end: nat, fields: seq<string>)
    requires IndexOf(body, Open, cursor) == Some(start) && IndexOf(body, Close, start + 3) == Some(end)
    requires Fields(body[start + 3..end]) == Some(fields)
    ensures ParseFrom(body, cursor) == Prepend([ToReference(fields, start)], ParseFrom(body, end + 2))
  {
    hide Fields, IndexOf, At;
  }

  lemma PrependNone(rest: Result<seq<Reference>, ParseError>)
    ensures Prepend([], rest) == rest
  {
    if rest.Ok? {
      assert [] + rest.value == rest.value;
    }
  }

  lemma PrependTwice(a: seq<Reference>, b: Reference, rest: Result<seq<Reference>, ParseError>)
    ensures Prepend(a, Prepend([b], rest)) == Prepend(a + [b], rest)
  {
    if rest.Ok? {
      assert a + ([b] + rest.value) == a + [b] + rest.value;
    }
  }

  lemma ParseFails(body: string, cursor: nat, start: nat)
    requires IndexOf(body, Open, cursor) == Some(start)
    ensures match IndexOf(body, Close, start + 3)
      case None => ParseFrom(body, cursor) == Err(MissingClose(start))
      case Some(end) =>
        Fields(body[start + 3..end]).None? ==> ParseFrom(body, cursor) == Err(Malformed(start, body[start + 3..end]))
  {
    hide Fields;
  }

  lemma InUnitsMore(body: string, references: seq<Reference>, reference: Reference)
    ensures InUnits(body, references + [reference])
         == InUnits(body, references) + [reference.(position := Utf16.Offset(body, reference.position))]
  {
  }

  method ParseInlineNoteReferences(body: string) returns (r: Result<seq<Reference>, ParseError>)
    ensures r == Parse(body)
  {
    hide Fields, IndexOf, ToReference, ParseFrom, InUnits, Utf16.Offset;
    var references: seq<Reference> := [];
    var cursor := 0;
    ghost var scanned: seq<Reference> := [];
    PrependNone(Scan(body));
    ghost var rest := Scan(body);
    while cursor < |body|
      invariant rest == ParseFrom(body, cursor) && Scan(body) == Prepend(scanned, rest)
      invariant references == InUnits(body, scanned)
      decreases |body| - cursor
    {
      var start := IndexOf(body, Open, cursor);
      if start.None? {
        break;
      }
      ParseFails(body, cursor, start.value);
      var position := Utf16.Offset(body, start.value);
      var end := IndexOf(body, Close, start.value + 3);
      if end.None? {
        return Err(MissingClose(position));
      }
      var rawContent := body[start.value + 3..end.value];
      var fields := Fields(rawContent);
      if fields.None? {
        return Err(Malformed(position, rawContent));
      }
      ParseStep(body, cursor, start.value, end.value, fields.value);
      rest := ParseFrom(body, end.value + 2);
      ghost var found := ToReference(fields.value, start.value);
      PrependTwice(scanned, found, rest);
      InUnitsMore(body, scanned, found);
      scanned := scanned + [found];
      Moved(fields.value, start.value, position);
      references := references + [ToReference(fields.value, position)];
      cursor := end.value + 2;
    }
    NothingLeft(body, cursor);
    assert scanned + [] == scanned;
    r := Ok(references);
  }

  lemma Moved(fields: seq<string>, from: nat, to: nat)
    requires 1 <= |fields| <= 3
    ensures ToReference(fields, from).(position := to) == ToReference(fields, to)
  {
  }

  lemma IndexOfIs(s: string, mark: Mark, from: nat, i: nat)
    requires from <= i && MarkAt(s, i, mark) && forall k | from <= k < i :: !MarkAt(s, k, mark)
    ensures IndexOf(s, mark, from) == Some(i)
  {
    var r := IndexOf(s, mark, from);
    assert r.Some?;
    assert r.value <= i && i <= r.value;
  }

  // ------------------------------------------------------------------------------------------
  // What an accepted body looks like, said without the scan.

  // reference spans body[position..end]: it opens there, closes at the first ]] and holds its fields.
  ghost predicate Span(body: string, reference: Reference, end: nat) {
    var start := reference.position;
    && start + 5 <= end <= |body|
    && MarkAt(body, start, Open) && MarkAt(body, end - 2, Close)
    && (forall k | start + 3 <= k < end - 2 :: !MarkAt(body, k, Close))
    && var fields := Fields(body[start + 3..end - 2]);
    && fields.Some? && reference == ToReference(fields.value, start)
  }

  ghost predicate Covered(p: nat, references: seq<Reference>, ends: seq<nat>)
    requires |references| == |ends|
  {
    exists i :: 0 <= i < |ends| && references[i].position <= p < ends[i]
  }

  // From cursor on, the references are disjoint spans in order, and every ![[ starts one of them
  // or lies inside one.
  ghost predicate Reads(body: string, cursor: nat, references: seq<Reference>, ends: seq<nat>) {
    && |references| == |ends|
    && (forall i | 0 <= i < |ends| :: Span(body, references[i], ends[i]) && cursor <= references[i].position < ends[i])
    && (forall i, j | 0 <= i < j < |ends| :: ends[i] <= references[j].position)
    && (forall p: nat | cursor <= p && MarkAt(body, p, Open) :: Covered(p, references, ends))
  }

  lemma FoundSpan(body: string, cursor: nat, start: nat, end: nat, fields: seq<string>)
    requires IndexOf(body, Open, cursor) == Some(start) && IndexOf(body, Close, start + 3) == Some(end)
    requires Fields(body[start + 3..end]) == Some(fields)
    ensures Span(body, ToReference(fields, start), end + 2)
  {
    hide Fields, ToReference;
  }

  // How an accepted body goes on from its first reference.
  lemma ParsedFirst(body: string, cursor: nat, references: seq<Reference>)
    returns (start: nat, end: nat, fields: seq<string>, rest: seq<Reference>)
    requires ParseFrom(body, cursor) == Ok(references) && IndexOf(body, Open, cursor).Some?
    ensures IndexOf(body, Open, cursor) == Some(start) && IndexOf(body, Close, start + 3) == Some(end)
    ensures Fields(body[start + 3..end]) == Some(fields)
    ensures references == [ToReference(fields, start)] + rest && ParseFrom(body, end + 2) == Ok(rest)
  {
    hide Fields, ToReference, IndexOf;
    start := IndexOf(body, Open, cursor).value;
    end := IndexOf(body, Close, start + 3).value;
    fields := Fields(body[start + 3..end]).value;
    ParseStep(body, cursor, start, end, fields);
    rest := ParseFrom(body, end + 2).value;
  }

  lemma {:induction false} ParsedReads(body: string, cursor: nat, references: seq<Reference>) returns (ends: seq<nat>)
    requires ParseFrom(body, cursor) == Ok(references)
    ensures Reads(body, cursor, references, ends)
    decreases |body| - cursor
  {
    hide Fields, ToReference, Span, Covered, Reads;
    if IndexOf(body, Open, cursor).None? {
      ends := [];
      NoneReads(body, cursor);
    } else {
      hide ParseFrom, IndexOf;
      var start, end, fields, rest := ParsedFirst(body, cursor, references);
      FoundSpan(body, cursor, start, end, fields);
      var tail := ParsedReads(body, end + 2, rest);
      ends := [end + 2] + tail;
      ReadsCons(body, cursor, ToReference(fields, start), end + 2, rest, tail);
    }
  }

  lemma NoneReads(body: string, cursor: nat)
    requires IndexOf(body, Open, cursor).None?
    ensures Reads(body, cursor, [], [])
  {
  }

  lemma ReadsCons(body: string, cursor: nat, first: Reference, end: nat, rest: seq<Reference>, tail: seq<nat>)
    requires Span(body, first, end) && first.position < end && IndexOf(body, Open, cursor) == Some(first.position)
    requires Reads(body, end, rest, tail)
    ensures Reads(body, cursor, [first] + rest, [end] + tail)
  {
    hide Fields, IndexOf, ToReference, Span, At;
    var references, ends := [first] + rest, [end] + tail;
    assert forall i | 0 < i < |ends| :: ends[i] == tail[i - 1] && references[i] == rest[i - 1];
    forall p: nat | cursor <= p && MarkAt(body, p, Open) ensures Covered(p, references, ends) {
      if p < end {
        assert references[0].position <= p < ends[0];
      } else {
        var i :| 0 <= i < |tail| && rest[i].position <= p < tail[i];
        assert references[i + 1].position <= p < ends[i + 1];
      }
    }
  }

  lemma {:induction false} ReadsParse(body: string, cursor: nat, references: seq<Reference>, ends: seq<nat>)
    requires Reads(body, cursor, references, ends)
    ensures ParseFrom(body, cursor) == Ok(references)
    decreases |references|
  {
    hide Fields, ToReference, Span, ParseFrom, IndexOf, At;
    if references == [] {
      forall p | cursor <= p ensures !MarkAt(body, p, Open) {
        assert !Covered(p, references, ends);
      }
      NothingLeft(body, cursor);
    } else {
      var fields := FirstReads(body, cursor, references, ends);
      ParseStep(body, cursor, references[0].position, ends[0] - 2, fields);
      RestReads(body, cursor, references, ends);
      ReadsParse(body, ends[0], references[1..], ends[1..]);
      assert references == [references[0]] + references[1..];
    }
  }

  lemma FirstOpens(body: string, cursor: nat, references: seq<Reference>, ends: seq<nat>)
    requires Reads(body, cursor, references, ends) && references != []
    ensures IndexOf(body, Open, cursor) == Some(references[0].position)
  {
    hide IndexOf, Fields, ToReference;
    var start := references[0].position;
    assert Span(body, references[0], ends[0]);
    forall p: nat | cursor <= p < start ensures !MarkAt(body, p, Open) {
      assert forall i | 0 < i < |ends| :: ends[0] <= references[i].position;
      assert !Covered(p, references, ends);
    }
    IndexOfIs(body, Open, cursor, start);
  }

  lemma FirstReads(body: string, cursor: nat, references: seq<Reference>, ends: seq<nat>) returns (fields: seq<string>)
    requires Reads(body, cursor, references, ends) && references != []
    ensures |ends| == |references|
    ensures var start, end := references[0].position, ends[0];
      && start + 5 <= end <= |body| && IndexOf(body, Open, cursor) == Some(start)
      && IndexOf(body, Close, start + 3) == Some(end - 2)
      && Fields(body[start + 3..end - 2]) == Some(fields) && references[0] == ToReference(fields, start)
  {
    hide IndexOf, Fields, ToReference, Reads, Span, At;
    FirstSpan(body, cursor, references, ends);
    FirstOpens(body, cursor, references, ends);
    fields := SpanCloses(body, references[0], ends[0]);
  }

  lemma FirstSpan(body: string, cursor: nat, references: seq<Reference>, ends: seq<nat>)
    requires Reads(body, cursor, references, ends) && references != []
    ensures |ends| == |references| && Span(body, references[0], ends[0])
  {
    hide Span, Covered, At;
  }

  lemma SpanCloses(body: string, r: Reference, end: nat) returns (fields: seq<string>)
    requires Span(body, r, end)
    ensures r.position + 5 <= end <= |body| && IndexOf(body, Close, r.position + 3) == Some(end - 2)
    ensures Fields(body[r.position + 3..end - 2]) == Some(fields) && r == ToReference(fields, r.position)
  {
    hide IndexOf, Fields, ToReference;
    fields := Fields(body[r.position + 3..end - 2]).value;
    IndexOfIs(body, Close, r.position + 3, end - 2);
  }

  lemma RestReads(body: string, cursor: nat, references: seq<Reference>, ends: seq<nat>)
    requires Reads(body, cursor, references, ends) && references != []
    ensures Reads(body, ends[0], references[1..], ends[1..])
  {
    hide Span, MarkAt;
    forall p: nat | ends[0] <= p && MarkAt(body, p, Open) ensures Covered(p, references[1..], ends[1..]) {
      var i :| 0 <= i < |ends| && references[i].position <= p < ends[i];
      assert references[1..][i - 1].position <= p < ends[1..][i - 1];
    }
  }

  // A body is scanned to these references exactly when they are its disjoint spans, in order, that leave
  // no ![[ uncovered.
  lemma ScanExactly(body: string, references: seq<Reference>)
    ensures Scan(body) == Ok(references) <==> exists ends :: Reads(body, 0, references, ends)
  {
    if Scan(body) == Ok(references) {
      var ends := ParsedReads(body, 0, references);
      assert Reads(body, 0, references, ends);
    }
    if ends :| Reads(body, 0, references, ends) {
      ReadsParse(body, 0, references, ends);
    }
  }

  // ------------------------------------------------------------------------------------------
  // Positions. A scan counts scalar values; the source counts UTF-16 code units.

  function Symbol(mark: Mark): string {
    match mark case Open => "![[" case Close => "]]"
  }

  lemma MarkIsText(s: string, i: int, mark: Mark)
    ensures MarkAt(s, i, mark) <==> At(s, i, Symbol(mark))
  {
    if 0 <= i && i + |Symbol(mark)| <= |s| {
      var there := s[i..i + |Symbol(mark)|];
      assert there[0] == s[i] && there[1] == s[i + 1] && (mark.Open? ==> there[2] == s[i + 2]);
    }
  }

  // The scan finds over the code units what it finds here, at the offset of the position it finds here.
  lemma IndexOfUnits(s: string, mark: Mark, from: nat)
    requires from <= |s|
    ensures match IndexOf(s, mark, from)
            case Some(i) =>
              && i <= |s| && Utf16.UnitsAt(Utf16.Encode(s), Utf16.Offset(s, i), Symbol(mark))
              && forall k | Utf16.Offset(s, from) <= k < Utf16.Offset(s, i) ::
                !Utf16.UnitsAt(Utf16.Encode(s), k, Symbol(mark))
            case None =>
              forall k | Utf16.Offset(s, from) <= k :: !Utf16.UnitsAt(Utf16.Encode(s), k, Symbol(mark))
  {
    hide IndexOf, MarkAt, At, Utf16.Encode, Utf16.Offset, Utf16.UnitsAt;
    var found := IndexOf(s, mark, from);
    if found.Some? {
      MarkIsText(s, found.value, mark);
      MarkWithin(s, found.value, mark);
      Utf16.OccursInUnits(s, found.value, Symbol(mark));
    }
    forall k: nat | Utf16.Offset(s, from) <= k && Utf16.UnitsAt(Utf16.Encode(s), k, Symbol(mark))
      ensures found.Some? && Utf16.Offset(s, found.value) <= k
    {
      var i := Utf16.UnitsOccur(s, k, Symbol(mark));
      MarkIsText(s, i, mark);
      if i < from {
        Utf16.OffsetsIncrease(s, i, from);
      }
      if found.Some? && found.value < i {
        Utf16.OffsetsIncrease(s, found.value, i);
      }
    }
  }

  lemma MarkWithin(s: string, i: int, mark: Mark)
    requires MarkAt(s, i, mark)
    ensures 0 <= i < |s|
  {
  }

  lemma SymbolAscii(mark: Mark)
    ensures Utf16.Ascii(Symbol(mark)) && 2 <= |Symbol(mark)| <= 3
  {
  }

  lemma MarkInUnits(s: string, i: nat, mark: Mark)
    requires MarkAt(s, i, mark)
    ensures i + |Symbol(mark)| <= |s| && Utf16.UnitsAt(Utf16.Encode(s), Utf16.Offset(s, i), Symbol(mark))
    ensures Utf16.Offset(s, i + |Symbol(mark)|) == Utf16.Offset(s, i) + |Symbol(mark)|
  {
    hide Utf16.Encode, Utf16.Offset, Utf16.UnitsAt;
    MarkIsText(s, i, mark);
    SymbolAscii(mark);
    Utf16.OccursInUnits(s, i, Symbol(mark));
    Utf16.OffsetAfter(s, i, Symbol(mark));
  }

  lemma UnitsHaveMark(s: string, k: nat, mark: Mark) returns (i: nat)
    requires Utf16.UnitsAt(Utf16.Encode(s), k, Symbol(mark))
    ensures MarkAt(s, i, mark) && i < |s| && k == Utf16.Offset(s, i)
  {
    hide Utf16.Encode, Utf16.Offset, Utf16.UnitsAt;
    SymbolAscii(mark);
    i := Utf16.UnitsOccur(s, k, Symbol(mark));
    MarkIsText(s, i, mark);
  }

  // The same spans over code units: reference spans u[position..end].
  ghost predicate UnitSpan(u: seq<Utf16.Unit>, reference: Reference, end: nat) {
    var start := reference.position;
    && start + 5 <= end <= |u|
    && Utf16.UnitsAt(u, start, Symbol(Open)) && Utf16.UnitsAt(u, end - 2, Symbol(Close))
    && (forall k | start + 3 <= k < end - 2 :: !Utf16.UnitsAt(u, k, Symbol(Close)))
    && exists content ::
         && u[start + 3..end - 2] == Utf16.Encode(content) && Fields(content).Some?
         && reference == ToReference(Fields(content).value, start)
  }

  ghost predicate ReadsUnits(u: seq<Utf16.Unit>, references: seq<Reference>, ends: seq<nat>) {
    && |references| == |ends|
    && (forall i | 0 <= i < |ends| :: UnitSpan(u, references[i], ends[i]))
    && (forall i, j | 0 <= i < j < |ends| :: ends[i] <= references[j].position)
    && (forall p: nat | Utf16.UnitsAt(u, p, Symbol(Open)) :: Covered(p, references, ends))
  }

  lemma SpanInUnits(body: string, reference: Reference, end: nat)
    requires Span(body, reference, end)
    ensures UnitSpan(Utf16.Encode(body), reference.(position := Utf16.Offset(body, reference.position)),
                     Utf16.Offset(body, end))
  {
    hide Fields, Utf16.Encode, Utf16.Offset, Utf16.UnitsAt, MarkAt;
    var start, content := reference.position, body[reference.position + 3..end - 2];
    MarkInUnits(body, start, Open);
    MarkInUnits(body, end - 2, Close);
    Utf16.EncodeSlice(body, start + 3, end - 2);
    Utf16.EncodeSlice(body, end, |body|);
    forall k: nat | Utf16.Offset(body, start) + 3 <= k < Utf16.Offset(body, end) - 2
      ensures !Utf16.UnitsAt(Utf16.Encode(body), k, Symbol(Close))
    {
      if Utf16.UnitsAt(Utf16.Encode(body), k, Symbol(Close)) {
        var i := UnitsHaveMark(body, k, Close);
        Utf16.OffsetOrder(body, start + 3, i);
        Utf16.OffsetOrder(body, end - 2, i);
      }
    }
    assert Utf16.Encode(body)[Utf16.Offset(body, start) + 3..Utf16.Offset(body, end) - 2] == Utf16.Encode(content);
    Moved(Fields(content).value, start, Utf16.Offset(body, start));
  }

  lemma SpanFromUnits(body: string, reference: Reference, end: nat) returns (scanned: Reference, stop: nat)
    requires UnitSpan(Utf16.Encode(body), reference, end)
    ensures Span(body, scanned, stop) && end == Utf16.Offset(body, stop)
    ensures reference == scanned.(position := Utf16.Offset(body, scanned.position))
  {
    hide Fields, Utf16.Encode, Utf16.Offset, Utf16.UnitsAt, MarkAt;
    var u := Utf16.Encode(body);
    var start := UnitsHaveMark(body, reference.position, Open);
    var close := UnitsHaveMark(body, end - 2, Close);
    stop := close + 2;
    MarkInUnits(body, start, Open);
    MarkInUnits(body, close, Close);
    Utf16.OffsetOrder(body, start + 3, close);
    Utf16.EncodeSlice(body, start + 3, close);
    var content :| && u[reference.position + 3..end - 2] == Utf16.Encode(content) && Fields(content).Some?
                   && reference == ToReference(Fields(content).value, reference.position);
    Utf16.EncodeInjective(content, body[start + 3..close]);
    scanned := ToReference(Fields(content).value, start);
    Moved(Fields(content).value, start, reference.position);
    forall k | start + 3 <= k < close ensures !MarkAt(body, k, Close) {
      if MarkAt(body, k, Close) {
        MarkInUnits(body, k, Close);
        Utf16.OffsetOrder(body, start + 3, k);
        Utf16.OffsetOrder(body, close, k);
      }
    }
  }

  // scanned and stops are references and ends, counted in scalar values.
  ghost predicate Counterparts(body: string, scanned: seq<Reference>, stops: seq<nat>, references: seq<Reference>,
                               ends: seq<nat>)
  {
    && |scanned| == |stops| == |references| == |ends|
    && (forall i | 0 <= i < |scanned| ::
          && Span(body, scanned[i], stops[i]) && ends[i] == Utf16.Offset(body, stops[i])
          && references[i] == scanned[i].(position := Utf16.Offset(body, scanned[i].position)))
  }

  lemma CounterpartsRead(body: string, scanned: seq<Reference>, stops: seq<nat>, references: seq<Reference>,
                         ends: seq<nat>)
    requires Counterparts(body, scanned, stops, references, ends)
    ensures Reads(body, 0, scanned, stops) <==> ReadsUnits(Utf16.Encode(body), references, ends)
  {
    hide Span, UnitSpan, Utf16.Encode, Utf16.Offset, Utf16.UnitsAt, MarkAt;
    forall i | 0 <= i < |scanned| ensures UnitSpan(Utf16.Encode(body), references[i], ends[i]) {
      SpanInUnits(body, scanned[i], stops[i]);
    }
    forall i | 0 <= i < |scanned| ensures scanned[i].position < stops[i] <= |body| {
      SpanBounds(body, scanned[i], stops[i]);
    }
    forall i, j | 0 <= i < j < |scanned|
      ensures stops[i] <= scanned[j].position <==> ends[i] <= references[j].position
    {
      Utf16.OffsetOrder(body, stops[i], scanned[j].position);
    }
    forall p: nat | p <= |body|
      ensures Covered(p, scanned, stops) <==> Covered(Utf16.Offset(body, p), references, ends)
    {
      CoveredAlike(body, scanned, stops, references, ends, p);
    }
    hide Covered, Counterparts;
    if Reads(body, 0, scanned, stops) {
      forall k: nat | Utf16.UnitsAt(Utf16.Encode(body), k, Symbol(Open)) ensures Covered(k, references, ends) {
        var p := UnitsHaveMark(body, k, Open);
        assert Covered(p, scanned, stops);
      }
    }
    if ReadsUnits(Utf16.Encode(body), references, ends) {
      forall p: nat | MarkAt(body, p, Open) ensures Covered(p, scanned, stops) {
        MarkInUnits(body, p, Open);
      }
    }
  }

  lemma SpanBounds(body: string, reference: Reference, end: nat)
    requires Span(body, reference, end)
    ensures reference.position < end <= |body|
  {
  }

  lemma CoveredAlike(body: string, scanned: seq<Reference>, stops: seq<nat>, references: seq<Reference>, ends: seq<nat>,
                     p: nat)
    requires Counterparts(body, scanned, stops, references, ends) && p <= |body|
    ensures Covered(p, scanned, stops) <==> Covered(Utf16.Offset(body, p), references, ends)
  {
    hide Span, Utf16.Offset;
    forall i | 0 <= i < |scanned|
      ensures scanned[i].position <= p < stops[i]
         <==> references[i].position <= Utf16.Offset(body, p) < ends[i]
    {
      SpanBounds(body, scanned[i], stops[i]);
      Utf16.OffsetOrder(body, scanned[i].position, p);
      Utf16.OffsetOrder(body, stops[i], p);
    }
  }

  lemma {:induction false} CounterpartsExist(body: string, references: seq<Reference>, ends: seq<nat>)
    returns (scanned: seq<Reference>, stops: seq<nat>)
    requires |references| == |ends|
    requires forall i | 0 <= i < |ends| :: UnitSpan(Utf16.Encode(body), references[i], ends[i])
    ensures Counterparts(body, scanned, stops, references, ends)
  {
    hide Span, UnitSpan, Utf16.Encode, Utf16.Offset;
    scanned, stops := [], [];
    if references != [] {
      var n := |references| - 1;
      scanned, stops := CounterpartsExist(body, references[..n], ends[..n]);
      var last, stop := SpanFromUnits(body, references[n], ends[n]);
      scanned, stops := scanned + [last], stops + [stop];
    }
  }

  // A body is accepted with these references exactly when, over its code units, they are disjoint spans,
  // in order, that leave no ![[ uncovered. Their positions count code units.
  lemma ParseExactly(body: string, references: seq<Reference>)
    ensures Parse(body) == Ok(references) <==> exists ends :: ReadsUnits(Utf16.Encode(body), references, ends)
  {
    hide ParseFrom, Reads, ReadsUnits, Counterparts, Utf16.Encode, Utf16.Offset;
    if Parse(body) == Ok(references) {
      var scanned := Scan(body).value;
      ScanExactly(body, scanned);
      var stops :| Reads(body, 0, scanned, stops);
      var ends := EndsInUnits(body, stops);
      ReadCounterparts(body, scanned, stops);
      CounterpartsRead(body, scanned, stops, references, ends);
    }
    if ends :| ReadsUnits(Utf16.Encode(body), references, ends) {
      var scanned, stops := UnitsCounterparts(body, references, ends);
      CounterpartsRead(body, scanned, stops, references, ends);
      ScanExactly(body, scanned);
      assert InUnits(body, scanned) == references by { CounterpartsInUnits(body, scanned, stops, references, ends); }
    }
  }

  function EndsInUnits(body: string, stops: seq<nat>): (ends: seq<nat>)
    ensures |ends| == |stops| && forall i | 0 <= i < |ends| :: ends[i] == Utf16.Offset(body, stops[i])
  {
    if stops == [] then [] else [Utf16.Offset(body, stops[0])] + EndsInUnits(body, stops[1..])
  }

  lemma ReadCounterparts(body: string, scanned: seq<Reference>, stops: seq<nat>)
    requires Reads(body, 0, scanned, stops)
    ensures Counterparts(body, scanned, stops, InUnits(body, scanned), EndsInUnits(body, stops))
  {
    hide Span, InUnits, EndsInUnits, Utf16.Offset, MarkAt;
  }

  lemma UnitsCounterparts(body: string, references: seq<Reference>, ends: seq<nat>)
    returns (scanned: seq<Reference>, stops: seq<nat>)
    requires ReadsUnits(Utf16.Encode(body), references, ends)
    ensures Counterparts(body, scanned, stops, references, ends)
  {
    hide UnitSpan, Counterparts;
    scanned, stops := CounterpartsExist(body, references, ends);
  }

  lemma CounterpartsInUnits(body: string, scanned: seq<Reference>, stops: seq<nat>, references: seq<Reference>,
                            ends: seq<nat>)
    requires Counterparts(body, scanned, stops, references, ends)
    ensures InUnits(body, scanned) == references
  {
    hide Span, InUnits, Utf16.Offset;
  }

  // ------------------------------------------------------------------------------------------
  // Printing references and parsing them back.

  datatype Link = Link(target: string, caption: Option<string>, qualifier: Option<string>)

  function Located(l: Link, position: nat): Reference {
    Reference(l.target, l.caption, l.qualifier, position)
  }

  function Content(l: Link): string {
    l.target
    + (if l.caption.Some? then "|" + l.caption.value else "")
    + (if l.qualifier.Some? then "|" + l.qualifier.value else "")
  }

  function Printed(l: Link): string {
    "![[" + Content(l) + "]]"
  }

  ghost predicate FieldOk(f: string) {
    f != "" && Trim(f) == f && '|' !in f && '\n' !in f && '\r' !in f
  }

  // The links that survive printing: sound fields, a label wherever there is a qualifier, and no
  // ]] before the closing one (a last field that ends in ] would make one).
  ghost predicate Printable(l: Link) {
    && FieldOk(l.target)
    && (l.caption.Some? ==> FieldOk(l.caption.value))
    && (l.qualifier.Some? ==> l.caption.Some? && FieldOk(l.qualifier.value))
    && forall k | 0 <= k < |Content(l)| :: !MarkAt(Content(l) + "]]", k, Close)
  }

  function FieldsOf(l: Link): seq<string> {
    [l.target] + (if l.caption.Some? then [l.caption.value] else [])
    + (if l.qualifier.Some? then [l.qualifier.value] else [])
  }

  lemma SplitContent(l: Link)
    requires Printable(l)
    ensures Split('|', Content(l)) == FieldsOf(l)
  {
    if l.caption.None? {
      assert Content(l) == l.target;
      SplitWhole('|', l.target);
    } else if l.qualifier.None? {
      assert Content(l) == l.target + "|" + l.caption.value;
      SplitAtFirst('|', l.target, l.caption.value);
      SplitWhole('|', l.caption.value);
    } else {
      assert Content(l) == l.target + "|" + (l.caption.value + "|" + l.qualifier.value);
      SplitAtFirst('|', l.target, l.caption.value + "|" + l.qualifier.value);
      SplitAtFirst('|', l.caption.value, l.qualifier.value);
      SplitWhole('|', l.qualifier.value);
    }
  }

  lemma PrintableFields(l: Link)
    requires Printable(l)
    ensures Fields(Content(l)) == Some(FieldsOf(l))
    ensures forall p: nat :: ToReference(FieldsOf(l), p) == Located(l, p)
  {
    SplitContent(l);
    TrimmedFields(FieldsOf(l));
  }

  lemma {:induction false} TrimmedFields(fields: seq<string>)
    requires forall i | 0 <= i < |fields| :: Trim(fields[i]) == fields[i]
    ensures TrimAll(fields) == fields
  {
    if fields != [] {
      TrimmedFields(fields[1..]);
    }
  }

  function Print(pieces: seq<(string, Link)>, tail: string): string {
    if pieces == [] then tail else pieces[0].0 + Printed(pieces[0].1) + Print(pieces[1..], tail)
  }

  // The references where Print puts them, counted in scalar values ...
  function Scanned(pieces: seq<(string, Link)>, offset: nat): seq<Reference> {
    if pieces == [] then []
    else
      var start := offset + |pieces[0].0|;
      [Located(pieces[0].1, start)] + Scanned(pieces[1..], start + |Printed(pieces[0].1)|)
  }

  // ... and in code units.
  function Expected(pieces: seq<(string, Link)>, offset: nat): seq<Reference> {
    if pieces == [] then []
    else
      var start := offset + |Utf16.Encode(pieces[0].0)|;
      [Located(pieces[0].1, start)] + Expected(pieces[1..], start + |Utf16.Encode(Printed(pieces[0].1))|)
  }

  lemma OffsetOfPrefix(before: string, after: string)
    ensures Utf16.Offset(before + after, |before|) == |Utf16.Encode(before)|
  {
    assert (before + after)[..|before|] == before;
  }

  lemma {:induction false} ScannedInUnits(body: string, before: string, pieces: seq<(string, Link)>, tail: string)
    requires body == before + Print(pieces, tail)
    ensures InUnits(body, Scanned(pieces, |before|)) == Expected(pieces, |Utf16.Encode(before)|)
    decreases |pieces|
  {
    hide Printed, Utf16.Encode, Utf16.Offset, Located;
    if pieces != [] {
      var (text, l) := pieces[0];
      var rest := Print(pieces[1..], tail);
      assert body == (before + text) + (Printed(l) + rest);
      assert body == (before + text + Printed(l)) + rest;
      OffsetOfPrefix(before + text, Printed(l) + rest);
      Utf16.EncodeConcat(before, text);
      Utf16.EncodeConcat(before + text, Printed(l));
      ScannedInUnits(body, before + text + Printed(l), pieces[1..], tail);
      LocatedMoves(l, |before + text|, |Utf16.Encode(before + text)|);
    }
  }

  lemma LocatedMoves(l: Link, from: nat, to: nat)
    ensures Located(l, from).position == from && Located(l, from).(position := to) == Located(l, to)
  {
  }

  // A text without ![[ cannot complete one together with the mark after it.
  lemma TextBeforeLink(body: string, from: nat, text: string, rest: string)
    requires Text.At(body, from, text + "![[" + rest) && forall k :: !MarkAt(text, k, Open)
    ensures IndexOf(body, Open, from) == Some(from + |text|)
  {
    var whole := text + "![[" + rest;
    assert body[from..from + |whole|] == whole;
    assert forall p | from <= p < from + |whole| :: body[p] == whole[p - from];
    forall p | from <= p < from + |text| ensures !MarkAt(body, p, Open) {
      assert !MarkAt(text, p - from, Open);
    }
    IndexOfIs(body, Open, from, from + |text|);
  }

  lemma LinkCloses(body: string, start: nat, c: string)
    requires Text.At(body, start, "![[" + c + "]]") && forall k | 0 <= k < |c| :: !MarkAt(c + "]]", k, Close)
    ensures IndexOf(body, Close, start + 3) == Some(start + 3 + |c|)
    ensures body[start + 3..start + 3 + |c|] == c
  {
    var whole := "![[" + c + "]]";
    assert body[start..start + |whole|] == whole;
    assert forall p | start <= p < start + |whole| :: body[p] == whole[p - start];
    forall p | start + 3 <= p < start + 3 + |c| ensures !MarkAt(body, p, Close) {
      assert !MarkAt(c + "]]", p - start - 3, Close);
    }
    IndexOfIs(body, Close, start + 3, start + 3 + |c|);
  }

  lemma LinkParses(body: string, from: nat, text: string, l: Link)
    requires Text.At(body, from, text + Printed(l)) && Printable(l) && forall k :: !MarkAt(text, k, Open)
    ensures ParseFrom(body, from)
         == Prepend([Located(l, from + |text|)], ParseFrom(body, from + |text| + |Printed(l)|))
  {
    hide Fields, ToReference, ParseFrom, IndexOf, FieldsOf;
    var start := from + |text|;
    assert text + Printed(l) == text + "![[" + (Content(l) + "]]");
    TextBeforeLink(body, from, text, Content(l) + "]]");
    assert body[start..start + |Printed(l)|] == body[from..from + |text + Printed(l)|][|text|..];
    LinkCloses(body, start, Content(l));
    PrintableFields(l);
    ParseStep(body, from, start, start + 3 + |Content(l)|, FieldsOf(l));
  }

  lemma HeadAndRest(body: string, from: nat, first: string, rest: string)
    requires from <= |body| && body[from..] == first + rest
    ensures Text.At(body, from, first) && body[from + |first|..] == rest
  {
    assert |body| == from + |first| + |rest|;
    assert body[from..from + |first|] == body[from..][..|first|];
    assert body[from + |first|..] == body[from..][|first|..];
  }

  lemma {:induction false} ParsePrinted(body: string, from: nat, pieces: seq<(string, Link)>, tail: string)
    requires forall piece | piece in pieces :: Printable(piece.1) && forall k :: !MarkAt(piece.0, k, Open)
    requires forall k :: !MarkAt(tail, k, Open)
    requires from <= |body| && body[from..] == Print(pieces, tail)
    ensures ParseFrom(body, from) == Ok(Scanned(pieces, from))
    decreases |pieces|
  {
    hide Fields, Printable, Printed, ParseFrom, IndexOf;
    if pieces == [] {
      forall k | from <= k ensures !MarkAt(body, k, Open) {
        assert !MarkAt(tail, k - from, Open);
      }
      NothingLeft(body, from);
    } else {
      var (text, l) := pieces[0];
      assert pieces[0] in pieces;
      var first := text + Printed(l);
      HeadAndRest(body, from, first, Print(pieces[1..], tail));
      LinkParses(body, from, text, l);
      ParsePrinted(body, from + |first|, pieces[1..], tail);
    }
  }

  // Parsing what was printed gives the links back, each with its exact position in code units.
  lemma ParseOfPrint(pieces: seq<(string, Link)>, tail: string)
    requires forall piece | piece in pieces :: Printable(piece.1) && forall k :: !MarkAt(piece.0, k, Open)
    requires forall k :: !MarkAt(tail, k, Open)
    ensures Parse(Print(pieces, tail)) == Ok(Expected(pieces, 0))
  {
    hide Printable, Printed, ParseFrom, InUnits, MarkAt;
    assert Print(pieces, tail)[0..] == Print(pieces, tail);
    ParsePrinted(Print(pieces, tail), 0, pieces, tail);
    assert Print(pieces, tail) == "" + Print(pieces, tail);
    ScannedInUnits(Print(pieces, tail), "", pieces, tail);
  }

  // ------------------------------------------------------------------------------------------
  // Printable is exactly what survives: a link that comes back unchanged meets it.

  function JoinedLength(parts: seq<string>): int {
    if parts == [] then -1 else |parts[0]| + 1 + JoinedLength(parts[1..])
  }

  lemma {:induction false} BarParts(s: string)
    ensures JoinedLength(Split('|', s)) == |s|
    ensures forall part, c | part in Split('|', s) && c in part :: c in s && c != '|'
  {
    if s != "" {
      BarParts(s[1..]);
      var tail := Split('|', s[1..]);
      assert tail == [tail[0]] + tail[1..];
      if s[0] == '|' {
        assert ([""] + tail)[1..] == tail;
      } else {
        var parts := [[s[0]] + tail[0]] + tail[1..];
        assert parts[1..] == tail[1..];
      }
    }
  }

  lemma TrimShrinks(s: string)
    ensures |Trim(s)| <= |s| && Trim(Trim(s)) == Trim(s) && forall c | c in Trim(s) :: c in s
  {
    var pre, post := TrimSplits(s);
    TrimIdempotent(s);
  }

  lemma {:induction false} TrimAllShrinks(parts: seq<string>)
    ensures JoinedLength(TrimAll(parts)) <= JoinedLength(parts)
    ensures forall f | f in TrimAll(parts) :: exists part :: part in parts && f == Trim(part)
  {
    if parts != [] {
      TrimShrinks(parts[0]);
      TrimAllShrinks(parts[1..]);
      assert TrimAll(parts)[1..] == TrimAll(parts[1..]);
      assert forall part | part in parts[1..] :: part in parts;
    }
  }

  lemma FieldsSound(content: string)
    requires Fields(content).Some?
    ensures JoinedLength(Fields(content).value) <= |content|
    ensures forall f | f in Fields(content).value :: FieldOk(f)
  {
    var parts := Split('|', content);
    BarParts(content);
    TrimAllShrinks(parts);
    forall f | f in TrimAll(parts) && f != "" ensures FieldOk(f) {
      var part :| part in parts && f == Trim(part);
      TrimShrinks(part);
    }
  }

  lemma PrintableExactly(l: Link)
    ensures Parse(Printed(l)) == Ok([Located(l, 0)]) <==> Printable(l)
  {
    assert Printed(l) != "";
    hide Printable, ParseFrom, Printed, Utf16.Offset;
    if Printable(l) {
      PrintableSurvives(l);
    }
    if Parse(Printed(l)) == Ok([Located(l, 0)]) {
      var scanned := Scan(Printed(l)).value[0];
      assert scanned.(position := Utf16.Offset(Printed(l), scanned.position)) == Located(l, 0);
      OffsetZero(Printed(l), scanned.position);
      assert Scan(Printed(l)) == Ok([scanned]) && scanned == Located(l, 0);
      SurvivorPrintable(l);
    }
  }

  lemma OffsetZero(s: string, i: nat)
    ensures Utf16.Offset(s, 0) == 0
    ensures Utf16.Offset(s, i) == 0 && s != "" ==> i == 0
  {
    if 0 < i <= |s| {
      Utf16.OffsetsIncrease(s, 0, i);
    } else if i > |s| > 0 {
      Utf16.OffsetsIncrease(s, 0, |s|);
      assert s[..|s|] == s;
    }
  }

  lemma PrintableSurvives(l: Link)
    requires Printable(l)
    ensures Parse(Printed(l)) == Ok([Located(l, 0)])
  {
    hide ParseFrom, Scan;
    var pieces := [("", l)];
    ParseOfPrint(pieces, "");
    assert pieces[1..] == [];
    assert Print(pieces, "") == "" + Printed(l) + "" == Printed(l);
    assert Expected(pieces, 0) == [Located(l, 0)];
  }

  lemma SurvivorPrintable(l: Link)
    requires Scan(Printed(l)) == Ok([Located(l, 0)])
    ensures Printable(l)
  {
    hide Fields, FieldOk, ToReference, Split;
    var body, c := Printed(l), Content(l);
    IndexOfIs(body, Open, 0, 0);
    assert MarkAt(body, 3 + |c|, Close);
    var end := IndexOf(body, Close, 3).value;
    var fields := Fields(body[3..end]).value;
    assert body[3..end] == c[..end - 3];
    ParseStep(body, 0, 0, end, fields);
    assert ToReference(fields, 0) == [Located(l, 0)][0];
    SurvivorFields(l, fields);
    FieldsSound(c[..end - 3]);
    assert end == 3 + |c|;
    forall k | 0 <= k < |c| ensures !MarkAt(c + "]]", k, Close) {
      assert !MarkAt(body, k + 3, Close);
    }
    assert l.target in fields;
    assert l.caption.Some? ==> l.caption.value in fields;
    assert l.qualifier.Some? ==> l.qualifier.value in fields;
  }

  lemma SurvivorFields(l: Link, fields: seq<string>)
    requires 1 <= |fields| <= 3 && ToReference(fields, 0) == Located(l, 0)
    ensures fields == FieldsOf(l) && JoinedLength(fields) == |Content(l)|
    ensures l.qualifier.Some? ==> l.caption.Some?
  {
    if |fields| == 1 {
      JoinedLengths(fields[0], []);
      assert fields == [fields[0]];
    } else if |fields| == 2 {
      JoinedLengths(fields[0], [fields[1]]);
      JoinedLengths(fields[1], []);
      assert fields == [fields[0]] + [fields[1]];
    } else {
      JoinedLengths(fields[0], [fields[1], fields[2]]);
      JoinedLengths(fields[1], [fields[2]]);
      JoinedLengths(fields[2], []);
      assert fields == [fields[0]] + [fields[1], fields[2]];
      assert [fields[1], fields[2]] == [fields[1]] + [fields[2]];
    }
  }

  lemma JoinedLengths(first: string, rest: seq<string>)
    ensures JoinedLength([first] + rest) == |first| + 1 + JoinedLength(rest)
    ensures [first] + [] == [first]
  {
    assert ([first] + rest)[1..] == rest;
  }
}
