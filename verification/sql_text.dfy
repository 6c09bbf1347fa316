/**
 The SQL text layer of the tenant API: splitting a script into statements.

 Next is one turn of the scanner's loop, RawPieces the whole scan before trimming, and Split what
 the database executes. Block comments do not nest and a backslash is an ordinary character.
 */
module SqlText {
  import opened Outcomes
  import opened Text

  predicate IsNameStart(c: char) {
    'a' <= c <= 'z' || 'A' <= c <= 'Z' || c == '_'
  }

  predicate IsNameChar(c: char) {
    IsNameStart(c) || '0' <= c <= '9'
  }

  // The end of the run of name characters that starts at i.
  function NameEnd(s: string, i: nat): (j: nat)
    requires i <= |s|
    ensures i <= j <= |s|
    ensures forall k | i <= k < j :: IsNameChar(s[k])
    ensures j < |s| ==> !IsNameChar(s[j])
    decreases |s| - i
  {
    if i < |s| && IsNameChar(s[i]) then NameEnd(s, i + 1) else i
  }

  // Length of the dollar-quote tag ($$ or $name$) at the head of s, 0 when there is none.
  function TagLength(s: string): (n: nat)
    ensures n == 0 || 2 <= n <= |s|
  {
    if |s| < 2 || s[0] != '$' then 0
    else if s[1] == '$' then 2
    else if !IsNameStart(s[1]) then 0
    else
      var j := NameEnd(s, 2);
      if j < |s| && s[j] == '$' then j + 1 else 0
  }

  // Letters, digits and underscores, at least one of them, and no digit first.
  ghost predicate IsName(n: string) {
    && n != "" && !('0' <= n[0] <= '9')
    && forall i | 0 <= i < |n| ::
         'a' <= n[i] <= 'z' || 'A' <= n[i] <= 'Z' || '0' <= n[i] <= '9' || n[i] == '_'
  }

  // s starts with the tag of a dollar quote whose second dollar sign is at k.
  ghost predicate SpellsTag(s: string, k: nat) {
    1 <= k < |s| && s[0] == '$' && s[k] == '$' && (k == 1 || IsName(s[1..k]))
  }

  lemma TagSpelt(s: string, k: nat)
    requires SpellsTag(s, k)
    ensures TagLength(s) == k + 1
  {
    if k > 1 {
      assert forall i | 1 <= i < k :: s[i] == s[1..k][i - 1];
      NameEndAt(s, 2, k);
    }
  }

  lemma TagSpells(s: string)
    requires TagLength(s) > 0
    ensures SpellsTag(s, TagLength(s) - 1)
  {
  }

  // The tag is read exactly where one is spelt, and 0 is answered exactly where none is.
  lemma TagExactly(s: string, k: nat)
    ensures TagLength(s) == k + 1 <==> SpellsTag(s, k)
    ensures TagLength(s) == 0 <==> forall i: nat :: !SpellsTag(s, i)
  {
    hide TagLength, SpellsTag;
    if TagLength(s) > 0 {
      TagSpells(s);
    }
    forall i: nat | SpellsTag(s, i) ensures TagLength(s) == i + 1 {
      TagSpelt(s, i);
    }
  }

  predicate IsTag(t: string) {
    t != "" && TagLength(t) == |t|
  }

  // In a Dollar mode the tag is the one that opened it.
  datatype Mode = Normal | Single | Double | Line | Block | Dollar(tag: string)

  predicate Valid(m: Mode) {
    m.Dollar? ==> IsTag(m.tag)
  }

  // One turn of the loop: pass over len characters, or cut the statement at a semicolon.
  datatype Turn = Move(len: nat, mode: Mode) | Cut

  lemma TagHead(s: string)
    requires TagLength(s) > 0
    ensures IsTag(s[..TagLength(s)])
  {
    var t := s[..TagLength(s)];
    if s[1] != '$' {
      NameEndAt(t, 2, |t| - 1);
    }
  }

  lemma {:induction false} NameEndAt(s: string, i: nat, j: nat)
    requires i <= j <= |s|
    requires forall k | i <= k < j :: IsNameChar(s[k])
    requires j < |s| ==> !IsNameChar(s[j])
    ensures NameEnd(s, i) == j
    decreases j - i
  {
    if i < j {
      NameEndAt(s, i + 1, j);
    }
  }

  predicate Pair(s: string, a: char, b: char) {
    |s| > 1 && s[0] == a && s[1] == b
  }

  function Next(m: Mode, s: string): (r: Turn)
    requires Valid(m) && s != ""
    ensures r.Move? ==> 1 <= r.len <= |s| && Valid(r.mode)
    ensures r.Cut? ==> m.Normal? && s[0] == ';'
  {
    match m
    case Line => Move(1, if s[0] == '\n' then Normal else Line)
    case Block => if Pair(s, '*', '/') then Move(2, Normal) else Move(1, Block)
    case Dollar(tag) => if At(s, 0, tag) then Move(|tag|, Normal) else Move(1, m)
    case Single => if Pair(s, '\'', '\'') then Move(2, Single) else Move(1, if s[0] == '\'' then Normal else Single)
    case Double => if Pair(s, '"', '"') then Move(2, Double) else Move(1, if s[0] == '"' then Normal else Double)
    case Normal =>
      if Pair(s, '-', '-') then Move(2, Line)
      else if Pair(s, '/', '*') then Move(2, Block)
      else if s[0] == '\'' then Move(1, Single)
      else if s[0] == '"' then Move(1, Double)
      else if TagLength(s) > 0 then TagHead(s); Move(TagLength(s), Dollar(s[..TagLength(s)]))
      else if s[0] == ';' then Cut
      else Move(1, Normal)
  }

  // The text between the cuts, in order; always at least one piece.
  function RawPieces(m: Mode, s: string): (ps: seq<string>)
    requires Valid(m)
    ensures ps != []
    decreases |s|
  {
    if s == "" then [""]
    else
      match Next(m, s)
      case Cut => [""] + RawPieces(Normal, s[1..])
      case Move(n, m') => Glue(s[..n], RawPieces(m', s[n..]))
  }

  function Glue(head: string, ps: seq<string>): seq<string>
    requires ps != []
  {
    [head + ps[0]] + ps[1..]
  }

  // Pieces trimmed, blank ones dropped.
  function Statements(ps: seq<string>): seq<string> {
    if ps == [] then [] else Statement(ps[0]) + Statements(ps[1..])
  }

  function Statement(piece: string): seq<string> {
    if Trim(piece) == "" then [] else [Trim(piece)]
  }

  function SplitScript(sql: string): seq<string> {
    Statements(RawPieces(Normal, sql))
  }

  lemma RawStep(m: Mode, s: string, n: nat, m': Mode, head: string, rest: string)
    requires Valid(m) && s != "" && Next(m, s) == Move(n, m') && s[..n] == head && s[n..] == rest
    ensures RawPieces(m, s) == Glue(head, RawPieces(m', rest))
  {
  }

  lemma RawCut(s: string)
    requires s != "" && Next(Normal, s) == Cut
    ensures RawPieces(Normal, s) == [""] + RawPieces(Normal, s[1..])
  {
  }

  lemma RawEmpty(m: Mode)
    requires Valid(m)
    ensures RawPieces(m, "") == [""]
  {
  }

  lemma GlueMove(current: string, head: string, ps: seq<string>)
    requires ps != []
    ensures Statements(Glue(current, Glue(head, ps))) == Statements(Glue(current + head, ps))
  {
    assert current + (head + ps[0]) == current + head + ps[0];
    assert Glue(current, Glue(head, ps)) == Glue(current + head, ps);
  }

  lemma GlueCut(current: string, ps: seq<string>)
    requires ps != []
    ensures Statements(Glue(current, [""] + ps)) == Statement(current) + Statements(Glue("", ps))
  {
    assert Glue(current, [""] + ps) == [current] + ps by {
      assert current + "" == current && ([""] + ps)[1..] == ps;
    }
    assert Glue("", ps) == ps by { assert "" + ps[0] == ps[0]; }
  }

  lemma GlueEnds(current: string, ps: seq<string>)
    requires ps != []
    ensures Glue("", ps) == ps
    ensures Statements(Glue(current, [""])) == Statement(current)
  {
    assert "" + ps[0] == ps[0];
    assert current + "" == current;
    assert Statements([current]) == Statement(current) + [];
  }

  // The branches of the loop body, with one character of lookahead. The five mode flags of the
  // source are one Mode here: at most one of them is ever set.
  method ReadTurn(sql: string, index: nat, mode: Mode) returns (turn: Turn)
    requires index < |sql| && Valid(mode)
    ensures turn == Next(mode, sql[index..])
  {
    var ch := sql[index];
    var nextChar := if index + 1 < |sql| then Some(sql[index + 1]) else None;
    if mode == Line {
      return Move(1, if ch == '\n' then Normal else Line);
    } else if mode == Block {
      return if ch == '*' && nextChar == Some('/') then Move(2, Normal) else Move(1, Block);
    } else if mode.Dollar? {
      assert forall n | index <= n <= |sql| :: sql[index..][0..n - index] == sql[index..n];
      return if At(sql, index, mode.tag) then Move(|mode.tag|, Normal) else Move(1, mode);
    } else if mode == Single {
      if ch != '\'' {
        return Move(1, Single);
      }
      return if nextChar == Some('\'') then Move(2, Single) else Move(1, Normal);
    } else if mode == Double {
      if ch != '"' {
        return Move(1, Double);
      }
      return if nextChar == Some('"') then Move(2, Double) else Move(1, Normal);
    }
    if ch == '-' && nextChar == Some('-') {
      return Move(2, Line);
    }
    if ch == '/' && nextChar == Some('*') {
      return Move(2, Block);
    }
    if ch == '\'' {
      return Move(1, Single);
    }
    if ch == '"' {
      return Move(1, Double);
    }
    if ch == '$' {
      var n := TagLength(sql[index..]);
      if n > 0 {
        return Move(n, Dollar(sql[index..][..n]));
      }
    }
    turn := if ch == ';' then Cut else Move(1, Normal);
  }

  method SplitSqlStatements(sql: string) returns (statements: seq<string>)
    ensures statements == SplitScript(sql)
  {
    hide Next, RawPieces, Glue, Statements;
    statements := [];
    var current, mode, index := "", Normal, 0;
    ghost var rest, due := sql, RawPieces(Normal, sql);
    GlueEnds("", due);
    while index < |sql|
      invariant 0 <= index <= |sql| && Valid(mode)
      invariant rest == sql[index..] && due == RawPieces(mode, rest)
      invariant statements + Statements(Glue(current, due)) == SplitScript(sql)
      decreases |sql| - index
    {
      var turn := ReadTurn(sql, index, mode);
      match turn {
        case Cut =>
          RawCut(rest);
          rest, due := rest[1..], RawPieces(Normal, rest[1..]);
          GlueCut(current, due);
          statements := statements + Statement(current);
          current, mode, index := "", Normal, index + 1;
        case Move(n, next) =>
          RawStep(mode, rest, n, next, rest[..n], rest[n..]);
          GlueMove(current, rest[..n], RawPieces(next, rest[n..]));
          assert rest[..n] == sql[index..index + n];
          rest, due := rest[n..], RawPieces(next, rest[n..]);
          current, mode, index := current + sql[index..index + n], next, index + n;
      }
    }
    GlueEnds(current, due);
    RawEmpty(mode);
    statements := statements + Statement(current);
  }

  // ------------------------------------------------------------------------------------------
  // Locality: a semicolon or white space never completes a lookahead, so what follows such a
  // character cannot change how the text before it is read.

  predicate Breaks(t: string) {
    t == "" || t[0] == ';' || IsSpace(t[0])
  }

  lemma TagChars(t: string, i: nat)
    requires IsTag(t) && i < |t|
    ensures t[i] == '$' || IsNameChar(t[i])
  {
  }

  lemma TagLocal(s: string, t: string)
    requires s != "" && Breaks(t)
    ensures TagLength(s + t) == TagLength(s)
  {
    if |s| == 1 || s[0] != '$' || s[1] == '$' || !IsNameStart(s[1]) {
    } else {
      var j := NameEnd(s, 2);
      assert forall k | 0 <= k < |s| :: (s + t)[k] == s[k];
      NameEndAt(s + t, 2, j);
    }
  }

  lemma NextLocal(m: Mode, s: string, t: string)
    requires Valid(m) && s != "" && Breaks(t)
    ensures Next(m, s + t) == Next(m, s)
  {
    TagLocal(s, t);
    assert forall k | 0 <= k < |s| :: (s + t)[k] == s[k];
    assert forall n | 0 <= n <= |s| :: (s + t)[..n] == s[..n];
    if m.Dollar? && At(s + t, 0, m.tag) && !At(s, 0, m.tag) {
      assert m.tag[|s|] == t[0];
      TagChars(m.tag, |s|);
    }
    if m.Dollar? && At(s, 0, m.tag) {
      assert (s + t)[0..|m.tag|] == s[0..|m.tag|];
    }
  }

  // ------------------------------------------------------------------------------------------
  // The mode in which a text ends, or None when it holds a top-level semicolon.

  function Run(m: Mode, s: string): (r: Option<Mode>)
    requires Valid(m)
    ensures r.Some? ==> Valid(r.value)
    decreases |s|
  {
    if s == "" then Some(m)
    else
      match Next(m, s)
      case Cut => None
      case Move(n, m') => Run(m', s[n..])
  }

  lemma RunStep(m: Mode, s: string, n: nat, m': Mode, rest: string)
    requires Valid(m) && s != "" && Next(m, s) == Move(n, m') && s[n..] == rest
    ensures Run(m, s) == Run(m', rest)
  {
  }

  ghost predicate Closed(p: string) {
    Run(Normal, p) == Some(Normal)
  }

  lemma {:induction false} RunAppend(m: Mode, s: string, t: string)
    requires Valid(m) && Breaks(t)
    ensures Run(m, s + t) == match Run(m, s) case None => None case Some(m') => Run(m', t)
    decreases |s|
  {
    if s == "" {
      assert s + t == t;
    } else {
      NextLocal(m, s, t);
      match Next(m, s)
      case Cut =>
      case Move(n, m') =>
        assert (s + t)[n..] == s[n..] + t;
        RunAppend(m', s[n..], t);
    }
  }

  // The lists of pieces whose separating semicolons are exactly the scanner's cuts.
  ghost predicate Cuttable(ps: seq<string>) {
    && ps != []
    && (forall i | 0 <= i < |ps| - 1 :: Closed(ps[i]))
    && Run(Normal, ps[|ps| - 1]).Some?
  }

  lemma {:induction false} UncutPiece(m: Mode, s: string)
    requires Valid(m) && Run(m, s).Some?
    ensures RawPieces(m, s) == [s]
    decreases |s|
  {
    hide Next;
    if s != "" {
      var Move(n, m') := Next(m, s);
      UncutPiece(m', s[n..]);
      assert s == s[..n] + s[n..];
    }
  }

  lemma {:induction false} CutAfter(m: Mode, s: string, t: string)
    requires Valid(m) && Run(m, s) == Some(Normal)
    ensures RawPieces(m, s + ";" + t) == [s] + RawPieces(Normal, t)
    decreases |s|
  {
    if s == "" {
      assert (s + ";" + t)[1..] == t;
    } else {
      var Move(n, m') := Next(m, s);
      CutAfter(m', s[n..], t);
      CutAfterMove(m, s, n, m', s + ";" + t, t, RawPieces(Normal, t));
    }
  }

  lemma CutAfterMove(m: Mode, s: string, n: nat, m': Mode, all: string, t: string, ps: seq<string>)
    requires Valid(m) && s != "" && Next(m, s) == Move(n, m') && all == s + ";" + t
    requires RawPieces(m', s[n..] + ";" + t) == [s[n..]] + ps
    ensures RawPieces(m, all) == [s] + ps
  {
    hide Next, RawPieces, Run;
    assert all == s + (";" + t);
    NextLocal(m, s, ";" + t);
    assert s[..n] + s[n..] == s;
    RawStep(m, all, n, m', s[..n], s[n..] + ";" + t);
    GlueFirst(s[..n], s[n..], ps);
  }

  lemma GlueFirst(head: string, first: string, ps: seq<string>)
    ensures Glue(head, [first] + ps) == [head + first] + ps
  {
  }

  lemma {:induction false} RawShape(m: Mode, s: string)
    requires Valid(m)
    ensures Shape(m, s, RawPieces(m, s))
    decreases |s|
  {
    if s != "" {
      match Next(m, s)
      case Cut =>
        RawShape(Normal, s[1..]);
        CutShape(s[1..], RawPieces(Normal, s[1..]));
      case Move(n, m') =>
        RawShape(m', s[n..]);
        MoveShape(m, s, n, m', RawPieces(m', s[n..]));
    }
  }

  ghost predicate Shape(m: Mode, s: string, ps: seq<string>)
    requires Valid(m) && ps != []
  {
    && Join(';', ps) == s
    && (|ps| == 1 ==> Run(m, ps[0]).Some?)
    && (|ps| > 1 ==> Run(m, ps[0]) == Some(Normal) && Cuttable(ps[1..]))
  }

  lemma CutShape(t: string, qs: seq<string>)
    requires qs != [] && Shape(Normal, t, qs)
    ensures Shape(Normal, ";" + t, [""] + qs)
  {
    assert ([""] + qs)[1..] == qs;
    assert forall i | 0 < i < |qs| :: qs[i] == qs[1..][i - 1];
    assert "" + ";" + t == ";" + t;
  }

  lemma MoveShape(m: Mode, s: string, n: nat, m': Mode, qs: seq<string>)
    requires Valid(m) && s != "" && Next(m, s) == Move(n, m') && qs != [] && Shape(m', s[n..], qs)
    ensures Shape(m, s, Glue(s[..n], qs))
  {
    hide Next, RawPieces;
    var first := s[..n] + qs[0];
    var rest := if |qs| == 1 then "" else ";" + Join(';', qs[1..]);
    assert Join(';', qs) == qs[0] + rest;
    assert Glue(s[..n], qs)[1..] == qs[1..];
    assert s == s[..n] + s[n..] == first + rest;
    NextLocal(m, first, rest);
    RunStep(m, first, n, m', qs[0]);
  }

  // Nothing is lost and every cut is a top-level semicolon.
  lemma PiecesRejoin(sql: string)
    ensures Join(';', RawPieces(Normal, sql)) == sql
    ensures Cuttable(RawPieces(Normal, sql))
  {
    RawShape(Normal, sql);
    var ps := RawPieces(Normal, sql);
    assert forall i | 0 < i < |ps| :: ps[i] == ps[1..][i - 1];
  }

  // ... and that determines the pieces: no other list has both properties.
  lemma {:induction false} PiecesUnique(ps: seq<string>)
    requires Cuttable(ps)
    ensures RawPieces(Normal, Join(';', ps)) == ps
  {
    if |ps| == 1 {
      UncutPiece(Normal, ps[0]);
    } else {
      var tail := ps[1..];
      assert forall i | 0 <= i < |tail| :: tail[i] == ps[i + 1];
      PiecesUnique(tail);
      CutAfter(Normal, ps[0], Join(';', tail));
    }
  }

  // A semicolon separates p from q exactly when p, read on its own, ends outside every quote and
  // comment and holds no cut of its own.
  lemma CutExactly(p: string, q: string)
    ensures RawPieces(Normal, p + ";" + q) == [p] + RawPieces(Normal, q) <==> Closed(p)
  {
    if Closed(p) {
      CutAfter(Normal, p, q);
    }
    RawShape(Normal, p + ";" + q);
  }

  // Splitting undoes joining: the trimmed pieces come back, the blank ones dropped.
  lemma SplitOfJoin(ps: seq<string>)
    requires Cuttable(ps)
    ensures SplitScript(Join(';', ps)) == Statements(ps)
    ensures (forall p | p in ps :: Trim(p) != "") ==>
      SplitScript(Join(';', ps)) == seq(|ps|, i requires 0 <= i < |ps| => Trim(ps[i]))
  {
    PiecesUnique(ps);
    if forall p | p in ps :: Trim(p) != "" {
      NoBlanks(ps);
    }
  }

  lemma {:induction false} NoBlanks(ps: seq<string>)
    requires forall p | p in ps :: Trim(p) != ""
    ensures Statements(ps) == seq(|ps|, i requires 0 <= i < |ps| => Trim(ps[i]))
  {
    if ps != [] {
      NoBlanks(ps[1..]);
      assert ps[0] in ps;
    }
  }

  lemma {:induction false} StatementOrigin(ps: seq<string>, i: nat) returns (k: nat)
    requires i < |Statements(ps)|
    ensures k < |ps| && Trim(ps[k]) == Statements(ps)[i] != ""
  {
    var head := Statement(ps[0]);
    if i < |head| {
      k := 0;
    } else {
      var j := StatementOrigin(ps[1..], i - |head|);
      k := j + 1;
    }
  }

  lemma {:induction false} LeadingSpace(pre: string, s: string)
    requires AllSpace(pre)
    ensures Run(Normal, pre + s) == Run(Normal, s)
  {
    if pre == "" {
      assert pre + s == s;
    } else {
      assert (pre + s)[1..] == pre[1..] + s;
      LeadingSpace(pre[1..], s);
    }
  }

  lemma TrimmedPieceAlone(p: string)
    requires Run(Normal, p).Some? && Trim(p) != ""
    ensures SplitScript(Trim(p)) == [Trim(p)]
  {
    hide Next, Run;
    var pre, post := TrimSplits(p);
    assert p == pre + (Trim(p) + post);
    LeadingSpace(pre, Trim(p) + post);
    RunAppend(Normal, Trim(p), post);
    UncutPiece(Normal, Trim(p));
    TrimIdempotent(p);
    assert Statements([Trim(p)]) == Statement(Trim(p)) + Statements([]);
  }

  // Splitting again changes nothing, whatever the script: also one with an unterminated quote,
  // dollar quote or comment, and also where trimming cut the end of a line comment.
  lemma SplitAgain(sql: string, i: nat)
    requires i < |SplitScript(sql)|
    ensures SplitScript(SplitScript(sql)[i]) == [SplitScript(sql)[i]]
  {
    PiecesRejoin(sql);
    var k := StatementOrigin(RawPieces(Normal, sql), i);
    TrimmedPieceAlone(RawPieces(Normal, sql)[k]);
  }

  // ------------------------------------------------------------------------------------------
  // The lexical grammar the scanner is meant to respect.

  datatype Lexeme =
    | Plain(c: char)
    | LineComment(body: string)
    | BlockComment(body: string)
    | Quoted(value: string)
    | QuotedName(value: string)
    | DollarQuoted(tag: string, body: string)

  function Doubled(value: string, quote: char): string {
    if value == "" then ""
    else (if value[0] == quote then [quote, quote] else [value[0]]) + Doubled(value[1..], quote)
  }

  function Render(l: Lexeme): string {
    match l
    case Plain(c) => [c]
    case LineComment(body) => "--" + body + "\n"
    case BlockComment(body) => "/*" + body + "*/"
    case Quoted(value) => "'" + Doubled(value, '\'') + "'"
    case QuotedName(value) => "\"" + Doubled(value, '"') + "\""
    case DollarQuoted(tag, body) => tag + body + tag
  }

  // l is one lexeme when the text t comes after it.
  ghost predicate Lexes(l: Lexeme, t: string) {
    match l
    case Plain(c) =>
      && c != ';' && c != '\'' && c != '"' && !Pair([c] + t, '-', '-') && !Pair([c] + t, '/', '*')
      && forall k :: !SpellsTag([c] + t, k)
    case LineComment(body) => '\n' !in body
    case BlockComment(body) => forall i :: !At(body, i, "*/")
    case Quoted(_) => t == "" || t[0] != '\''
    case QuotedName(_) => t == "" || t[0] != '"'
    case DollarQuoted(tag, body) =>
      && tag != "" && SpellsTag(tag, |tag| - 1)
      && forall i | 0 <= i < |body| :: !At(body + tag, i, tag)
  }

  lemma {:induction false} LineRuns(body: string, t: string)
    requires '\n' !in body
    ensures Run(Line, body + "\n" + t) == Run(Normal, t)
  {
    var s := body + "\n" + t;
    if body == "" {
      RunStep(Line, s, 1, Normal, t);
    } else {
      LineRuns(body[1..], t);
      RunStep(Line, s, 1, Line, body[1..] + "\n" + t);
    }
  }

  lemma {:induction false} BlockRuns(body: string, t: string)
    requires forall i :: !At(body, i, "*/")
    ensures Run(Block, body + "*/" + t) == Run(Normal, t)
  {
    var s := body + "*/" + t;
    if body == "" {
      RunStep(Block, s, 2, Normal, t);
    } else {
      forall i ensures !At(body[1..], i, "*/") {
        assert !At(body, i + 1, "*/");
        assert 0 <= i && i + 2 <= |body[1..]| ==> body[1..][i..i + 2] == body[i + 1..i + 3];
      }
      assert !At(body, 0, "*/");
      assert |body| > 1 ==> body[0..2] == [body[0], body[1]];
      BlockRuns(body[1..], t);
      RunStep(Block, s, 1, Block, body[1..] + "*/" + t);
    }
  }

  lemma {:induction false} SingleRuns(value: string, t: string)
    requires t == "" || t[0] != '\''
    ensures Run(Single, Doubled(value, '\'') + "'" + t) == Run(Normal, t)
  {
    hide TagLength, At, Run;
    var s := Doubled(value, '\'') + "'" + t;
    if value == "" {
      RunStep(Single, s, 1, Normal, t);
    } else {
      var rest := Doubled(value[1..], '\'') + "'" + t;
      SingleRuns(value[1..], t);
      if value[0] == '\'' {
        assert s == "''" + rest;
        RunStep(Single, s, 2, Single, rest);
      } else {
        assert s == [value[0]] + rest;
        RunStep(Single, s, 1, Single, rest);
      }
    }
  }

  lemma {:induction false} DoubleRuns(value: string, t: string)
    requires t == "" || t[0] != '"'
    ensures Run(Double, Doubled(value, '"') + "\"" + t) == Run(Normal, t)
  {
    hide TagLength, At, Run;
    var s := Doubled(value, '"') + "\"" + t;
    if value == "" {
      RunStep(Double, s, 1, Normal, t);
    } else {
      var rest := Doubled(value[1..], '"') + "\"" + t;
      DoubleRuns(value[1..], t);
      if value[0] == '"' {
        assert s == "\"\"" + rest;
        RunStep(Double, s, 2, Double, rest);
      } else {
        assert s == [value[0]] + rest;
        RunStep(Double, s, 1, Double, rest);
      }
    }
  }

  lemma {:induction false} DollarRuns(tag: string, body: string, t: string)
    requires IsTag(tag) && forall i | 0 <= i < |body| :: !At(body + tag, i, tag)
    ensures Run(Dollar(tag), body + tag + t) == Run(Normal, t)
    decreases |body|
  {
    hide TagLength, Pair, Run;
    var s := body + tag + t;
    if body == "" {
      assert s[0..|tag|] == tag;
      RunStep(Dollar(tag), s, |tag|, Normal, t);
    } else {
      forall i | 0 <= i < |body[1..]| ensures !At(body[1..] + tag, i, tag) {
        assert !At(body + tag, i + 1, tag);
        assert (body[1..] + tag)[i..i + |tag|] == (body + tag)[i + 1..i + 1 + |tag|];
      }
      DollarRuns(tag, body[1..], t);
      assert !At(body + tag, 0, tag);
      assert s[0..|tag|] == (body + tag)[0..|tag|];
      RunStep(Dollar(tag), s, 1, Dollar(tag), body[1..] + tag + t);
    }
  }

  lemma TagOpens(tag: string, t: string)
    requires IsTag(tag)
    ensures TagLength(tag + t) == |tag|
  {
    assert forall k | 0 <= k < |tag| :: (tag + t)[k] == tag[k];
    if tag[1] != '$' {
      NameEndAt(tag + t, 2, NameEnd(tag, 2));
    }
  }

  lemma LineCommentRuns(body: string, t: string)
    requires Lexes(LineComment(body), t)
    ensures Run(Normal, Render(LineComment(body)) + t) == Run(Normal, t)
  {
    var s := Render(LineComment(body)) + t;
    LineRuns(body, t);
    RunStep(Normal, s, 2, Line, body + "\n" + t);
  }

  lemma BlockCommentRuns(body: string, t: string)
    requires Lexes(BlockComment(body), t)
    ensures Run(Normal, Render(BlockComment(body)) + t) == Run(Normal, t)
  {
    var s := Render(BlockComment(body)) + t;
    BlockRuns(body, t);
    RunStep(Normal, s, 2, Block, body + "*/" + t);
  }

  lemma QuotedRuns(value: string, t: string)
    requires Lexes(Quoted(value), t)
    ensures Run(Normal, Render(Quoted(value)) + t) == Run(Normal, t)
  {
    hide Run, Doubled;
    var s := Render(Quoted(value)) + t;
    SingleRuns(value, t);
    RunStep(Normal, s, 1, Single, Doubled(value, '\'') + "'" + t);
  }

  lemma QuotedNameRuns(value: string, t: string)
    requires Lexes(QuotedName(value), t)
    ensures Run(Normal, Render(QuotedName(value)) + t) == Run(Normal, t)
  {
    hide Run, Doubled;
    var s := Render(QuotedName(value)) + t;
    DoubleRuns(value, t);
    RunStep(Normal, s, 1, Double, Doubled(value, '"') + "\"" + t);
  }

  lemma DollarQuotedRuns(tag: string, body: string, t: string)
    requires Lexes(DollarQuoted(tag, body), t)
    ensures Run(Normal, Render(DollarQuoted(tag, body)) + t) == Run(Normal, t)
  {
    hide Run;
    var s := Render(DollarQuoted(tag, body)) + t;
    TagExactly(tag, |tag| - 1);
    DollarRuns(tag, body, t);
    assert s == tag + (body + tag + t);
    TagOpens(tag, body + tag + t);
    assert s[..|tag|] == tag;
    RunStep(Normal, s, |tag|, Dollar(tag), body + tag + t);
  }

  // The scanner passes over a lexeme as a whole and is back in normal mode after it; a semicolon
  // inside one never cuts.
  lemma LexemeRuns(l: Lexeme, t: string)
    requires Lexes(l, t)
    ensures Run(Normal, Render(l) + t) == Run(Normal, t)
  {
    match l
    case Plain(c) =>
      TagExactly([c] + t, 0);
      RunStep(Normal, [c] + t, 1, Normal, t);
    case LineComment(body) => LineCommentRuns(body, t);
    case BlockComment(body) => BlockCommentRuns(body, t);
    case Quoted(value) => QuotedRuns(value, t);
    case QuotedName(value) => QuotedNameRuns(value, t);
    case DollarQuoted(tag, body) => DollarQuotedRuns(tag, body, t);
  }

  function RenderAll(ls: seq<Lexeme>): string {
    if ls == [] then "" else Render(ls[0]) + RenderAll(ls[1..])
  }

  ghost predicate LexesAll(ls: seq<Lexeme>) {
    ls == [] || (Lexes(ls[0], RenderAll(ls[1..])) && LexesAll(ls[1..]))
  }

  lemma {:induction false} LexemesClose(ls: seq<Lexeme>)
    requires LexesAll(ls)
    ensures Closed(RenderAll(ls))
  {
    if ls != [] {
      LexemesClose(ls[1..]);
      LexemeRuns(ls[0], RenderAll(ls[1..]));
    }
  }

  // A script printed statement by statement from lexemes splits back into those statements.
  lemma SplitOfScript(script: seq<seq<Lexeme>>)
    requires script != [] && forall ls | ls in script :: LexesAll(ls)
    ensures var texts := seq(|script|, i requires 0 <= i < |script| => RenderAll(script[i]));
      SplitScript(Join(';', texts)) == Statements(texts)
  {
    var texts := seq(|script|, i requires 0 <= i < |script| => RenderAll(script[i]));
    forall i | 0 <= i < |script| ensures Closed(texts[i]) {
      assert script[i] in script;
      LexemesClose(script[i]);
    }
    SplitOfJoin(texts);
  }
}
