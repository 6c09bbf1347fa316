/**
 Compiling named (@name) and positional (?) parameters to the $1, $2, ... of Postgres.
 A value is looked up by name; None stands for the source's undefined.
 */
module SqlParameters {
  import opened Outcomes
  import opened Decimals
  import opened SqlText

  // The matches of /@([a-zA-Z_][a-zA-Z0-9_]*)/g and the characters between them.
  datatype Token = Text(c: char) | Param(name: string)

  predicate ParamAt(sql: string) {
    |sql| > 1 && sql[0] == '@' && IsNameStart(sql[1])
  }

  function FirstWidth(sql: string): (n: nat)
    requires sql != ""
    ensures 1 <= n <= |sql|
  {
    if ParamAt(sql) then NameEnd(sql, 2) else 1
  }

  function First(sql: string): Token
    requires sql != ""
  {
    if ParamAt(sql) then Param(sql[1..FirstWidth(sql)]) else Text(sql[0])
  }

  function Tokenize(sql: string): seq<Token> {
    if sql == "" then [] else [First(sql)] + Tokenize(sql[FirstWidth(sql)..])
  }

  function Spelt(t: Token): string {
    match t case Text(c) => [c] case Param(name) => "@" + name
  }

  function SpeltAll(ts: seq<Token>): string {
    if ts == [] then "" else Spelt(ts[0]) + SpeltAll(ts[1..])
  }

  // t is what stands at the head of a statement that goes on with rest: a name as long as possible, or a
  // character, which is an at sign only where no name follows.
  ghost predicate Leads(t: Token, rest: string) {
    match t
    case Param(name) => IsName(name) && (rest != "" ==> !IsName(name + [rest[0]]))
    case Text(c) => c == '@' && rest != "" ==> !IsName([rest[0]])
  }

  ghost predicate LeadsAll(ts: seq<Token>) {
    ts == [] || (Leads(ts[0], SpeltAll(ts[1..])) && LeadsAll(ts[1..]))
  }

  lemma FirstLeads(sql: string)
    requires sql != ""
    ensures var n := FirstWidth(sql);
      Spelt(First(sql)) == sql[..n] && Leads(First(sql), sql[n..])
  {
    if ParamAt(sql) {
      var n := FirstWidth(sql);
      var name := sql[1..n];
      assert sql[..n] == "@" + name;
      if n < |sql| {
        assert (name + [sql[n]])[n - 1] == sql[n] == sql[n..][0];
      }
    } else if |sql| > 1 {
      assert [sql[1..][0]][0] == sql[1];
    }
  }

  lemma LeadsFirst(t: Token, rest: string)
    requires Leads(t, rest)
    ensures var sql := Spelt(t) + rest;
      sql != "" && First(sql) == t && FirstWidth(sql) == |Spelt(t)|
  {
    var sql, n := Spelt(t) + rest, |Spelt(t)|;
    if t.Param? {
      assert forall i | 1 <= i < n :: sql[i] == t.name[i - 1];
      if rest != "" {
        assert sql[n] == rest[0] && (t.name + [rest[0]])[0] == t.name[0];
        assert forall i | 0 <= i < |t.name| :: (t.name + [rest[0]])[i] == t.name[i];
      }
      NameEndAt(sql, 2, n);
    } else if rest != "" {
      assert [rest[0]][0] == sql[1];
    }
  }

  lemma {:induction false} TokensLead(sql: string)
    ensures SpeltAll(Tokenize(sql)) == sql && LeadsAll(Tokenize(sql))
  {
    hide First, FirstWidth, Leads, Spelt;
    if sql != "" {
      var n := FirstWidth(sql);
      FirstLeads(sql);
      TokensLead(sql[n..]);
      assert ([First(sql)] + Tokenize(sql[n..]))[1..] == Tokenize(sql[n..]);
    }
  }

  // The tokens are the one way to spell the statement in which every name is as long as it can be and no
  // at sign before a name is left alone.
  lemma {:induction false} TokensExactly(sql: string, ts: seq<Token>)
    ensures ts == Tokenize(sql) <==> SpeltAll(ts) == sql && LeadsAll(ts)
    decreases |ts|
  {
    hide First, FirstWidth, Leads, Spelt;
    TokensLead(sql);
    if ts != [] && LeadsAll(ts) && SpeltAll(ts) == sql {
      var rest := SpeltAll(ts[1..]);
      LeadsFirst(ts[0], rest);
      assert sql[|Spelt(ts[0])|..] == rest;
      TokensExactly(rest, ts[1..]);
      assert ts == [ts[0]] + ts[1..];
    }
  }

  // The distinct names, each where it first occurs.
  function Names(ts: seq<Token>): seq<string> {
    if ts == [] then [] else AddName(Names(ts[..|ts| - 1]), ts[|ts| - 1])
  }

  function AddName(names: seq<string>, t: Token): seq<string> {
    if t.Param? && t.name !in names then names + [t.name] else names
  }

  ghost predicate Distinct(names: seq<string>) {
    forall i, j | 0 <= i < j < |names| :: names[i] != names[j]
  }

  lemma {:induction false} NamesExactly(ts: seq<Token>)
    ensures Distinct(Names(ts))
    ensures forall n :: n in Names(ts) <==> Param(n) in ts
  {
    if ts != [] {
      NamesExactly(ts[..|ts| - 1]);
      assert ts == ts[..|ts| - 1] + [ts[|ts| - 1]];
    }
  }

  function Position(names: seq<string>, name: string): (i: nat)
    requires name in names
    ensures i < |names| && names[i] == name && name !in names[..i]
  {
    if names[0] == name then 0 else 1 + Position(names[1..], name)
  }

  function Placeholder(k: nat): string {
    "$" + Decimal(k)
  }

  function RenderToken(t: Token, names: seq<string>): string
    requires t.Param? ==> t.name in names
  {
    match t
    case Text(c) => [c]
    case Param(n) => Placeholder(Position(names, n) + 1)
  }

  function Render(ts: seq<Token>, names: seq<string>): string
    requires forall t | t in ts && t.Param? :: t.name in names
  {
    if ts == [] then "" else RenderToken(ts[0], names) + Render(ts[1..], names)
  }

  function Lookup<V>(values: map<string, V>, name: string): Option<V> {
    if name in values then Some(values[name]) else None
  }

  function Ordered<V>(values: map<string, V>, names: seq<string>): seq<Option<V>> {
    seq(|names|, i requires 0 <= i < |names| => Lookup(values, names[i]))
  }

  lemma {:induction false} PositionExtends(names: seq<string>, more: seq<string>, name: string)
    requires name in names
    ensures Position(names + more, name) == Position(names, name)
  {
    if names[0] != name {
      assert (names + more)[1..] == names[1..] + more;
      PositionExtends(names[1..], more, name);
    }
  }

  lemma {:induction false} RenderExtends(ts: seq<Token>, names: seq<string>, more: seq<string>)
    requires forall t | t in ts && t.Param? :: t.name in names
    ensures Render(ts, names + more) == Render(ts, names)
  {
    if ts != [] {
      if ts[0].Param? {
        PositionExtends(names, more, ts[0].name);
      }
      RenderExtends(ts[1..], names, more);
    }
  }

  lemma {:induction false} RenderSnoc(ts: seq<Token>, t: Token, names: seq<string>)
    requires forall u | u in ts + [t] && u.Param? :: u.name in names
    ensures Render(ts + [t], names) == Render(ts, names) + RenderToken(t, names)
  {
    hide RenderToken;
    if ts == [] {
      assert [] + [t] == [t];
    } else {
      assert (ts + [t])[1..] == ts[1..] + [t];
      RenderSnoc(ts[1..], t, names);
    }
  }

  lemma {:induction false} PositionOf(names: seq<string>, name: string)
    requires name !in names
    ensures Position(names + [name], name) == |names|
  {
    if names == [] {
      assert names + [name] == [name];
    } else {
      assert (names + [name])[1..] == names[1..] + [name];
      PositionOf(names[1..], name);
    }
  }

  // The loop's variables after the tokens done, whose names are names, have been replaced.
  ghost predicate Compiled<V>(values: map<string, V>, done: seq<Token>, names: seq<string>,
                              indexes: map<string, nat>, orderedValues: seq<Option<V>>, text: string)
  {
    && (forall n :: n in indexes <==> n in names)
    && (forall n | n in indexes :: indexes[n] == Position(names, n) + 1)
    && (forall t | t in done && t.Param? :: t.name in names)
    && orderedValues == Ordered(values, names)
    && text == Render(done, names)
  }

  lemma CompiledStep<V>(values: map<string, V>, done: seq<Token>, names: seq<string>,
                        indexes: map<string, nat>, orderedValues: seq<Option<V>>, text: string, t: Token)
    requires Compiled(values, done, names, indexes, orderedValues, text) && (t.Param? ==> t.name in names)
    ensures Compiled(values, done + [t], names, indexes, orderedValues, text + RenderToken(t, names))
  {
    RenderSnoc(done, t, names);
  }

  lemma CompiledName<V>(values: map<string, V>, done: seq<Token>, names: seq<string>,
                        indexes: map<string, nat>, orderedValues: seq<Option<V>>, text: string, name: string)
    requires Compiled(values, done, names, indexes, orderedValues, text) && name !in names
    ensures Compiled(values, done, names + [name], indexes[name := |orderedValues| + 1],
                     orderedValues + [Lookup(values, name)], text)
  {
    hide Render, Position;
    RenderExtends(done, names, [name]);
    PositionOf(names, name);
    forall n | n in names ensures Position(names + [name], n) == Position(names, n) {
      PositionExtends(names, [name], n);
    }
    assert Ordered(values, names + [name]) == Ordered(values, names) + [Lookup(values, name)];
  }

  lemma NamesSnoc(ts: seq<Token>, t: Token)
    ensures Names(ts + [t]) == AddName(Names(ts), t)
  {
    assert (ts + [t])[..|ts + [t]| - 1] == ts;
  }

  // The callback of String.replace: a name seen for the first time gets the next index.
  method ReplaceName<V>(values: map<string, V>, indexes: map<string, nat>, orderedValues: seq<Option<V>>, name: string,
                        ghost done: seq<Token>, ghost names: seq<string>, ghost text: string)
    returns (indexes': map<string, nat>, orderedValues': seq<Option<V>>, replacement: string)
    requires Compiled(values, done, names, indexes, orderedValues, text)
    ensures var t := Param(name);
      Compiled(values, done + [t], AddName(names, t), indexes', orderedValues', text + replacement)
  {
    hide Render, Ordered, Position, Decimal;
    indexes', orderedValues' := indexes, orderedValues;
    if name !in indexes {
      CompiledName(values, done, names, indexes, orderedValues, text, name);
      orderedValues' := orderedValues + [Lookup(values, name)];
      indexes' := indexes[name := |orderedValues'|];
    }
    CompiledStep(values, done, AddName(names, Param(name)), indexes', orderedValues', text, Param(name));
    replacement := Placeholder(indexes'[name]);
  }

  method CompileNamedParameters<V>(sql: string, values: map<string, V>)
    returns (text: string, orderedValues: seq<Option<V>>)
    ensures forall t | t in Tokenize(sql) && t.Param? :: t.name in Names(Tokenize(sql))
    ensures text == Render(Tokenize(sql), Names(Tokenize(sql)))
    ensures orderedValues == Ordered(values, Names(Tokenize(sql)))
  {
    text, orderedValues := "", [];
    var indexes: map<string, nat> := map[];
    var tokens := Tokenize(sql);
    ghost var names: seq<string> := [];
    for i := 0 to |tokens|
      invariant names == Names(tokens[..i])
      invariant Compiled(values, tokens[..i], names, indexes, orderedValues, text)
    {
      ghost var done := tokens[..i];
      assert tokens[..i + 1] == done + [tokens[i]];
      NamesSnoc(done, tokens[i]);
      match tokens[i] {
        case Param(name) =>
          var replacement: string;
          indexes, orderedValues, replacement := ReplaceName(values, indexes, orderedValues, name, done, names, text);
          text := text + replacement;
        case Text(c) =>
          CompiledStep(values, done, names, indexes, orderedValues, text, Text(c));
          text := text + [c];
      }
      names := AddName(names, tokens[i]);
    }
    assert tokens[..|tokens|] == tokens;
  }

  // ------------------------------------------------------------------------------------------
  // What the database makes of the compiled text: it reads $k as its k-th value.

  datatype Piece<V> = Char(c: char) | Bound(value: Option<V>) | Unbound

  function DigitsEnd(s: string, i: nat): (j: nat)
    requires i <= |s|
    ensures i <= j <= |s| && forall k | i <= k < j :: IsDigit(s[k])
    decreases |s| - i
  {
    if i < |s| && IsDigit(s[i]) then DigitsEnd(s, i + 1) else i
  }

  function ReadAt<V>(values: seq<Option<V>>, k: nat): Piece<V> {
    if 1 <= k <= |values| then Bound(values[k - 1]) else Unbound
  }

  function Execute<V>(text: string, values: seq<Option<V>>): seq<Piece<V>> {
    if text == "" then []
    else if text[0] == '$' && DigitsEnd(text, 1) > 1 then
      var end := DigitsEnd(text, 1);
      [ReadAt(values, Value(text[1..end]))] + Execute(text[end..], values)
    else [Char(text[0])] + Execute(text[1..], values)
  }

  // What the caller meant: each @name stands for the value of that name.
  function Meaning<V>(ts: seq<Token>, values: map<string, V>): seq<Piece<V>> {
    if ts == [] then []
    else
      var first := match ts[0] case Text(c) => Char(c) case Param(n) => Bound(Lookup(values, n));
      [first] + Meaning(ts[1..], values)
  }

  lemma {:induction false} DigitsEndAt(s: string, i: nat, j: nat)
    requires i <= j <= |s| && (forall k | i <= k < j :: IsDigit(s[k])) && (j < |s| ==> !IsDigit(s[j]))
    ensures DigitsEnd(s, i) == j
    decreases j - i
  {
    if i < j {
      DigitsEndAt(s, i + 1, j);
    }
  }

  lemma PlaceholderReads<V>(k: nat, rest: string, values: seq<Option<V>>)
    requires rest == "" || !IsDigit(rest[0])
    ensures Execute(Placeholder(k) + rest, values) == [ReadAt(values, k)] + Execute(rest, values)
  {
    ValueOfDecimal(k);
    DigitsRead(Decimal(k), rest, values);
    assert Placeholder(k) + rest == "$" + (Decimal(k) + rest);
  }

  lemma DigitsRead<V>(digits: string, rest: string, values: seq<Option<V>>)
    requires digits != "" && (forall i | 0 <= i < |digits| :: IsDigit(digits[i])) && (rest == "" || !IsDigit(rest[0]))
    ensures Execute("$" + (digits + rest), values) == [ReadAt(values, Value(digits))] + Execute(rest, values)
  {
    var text, n := "$" + (digits + rest), 1 + |digits|;
    assert text[1..n] == digits && text[n..] == rest;
    DigitsEndAt(text, 1, n);
    ExecuteBound(text, n, rest, values);
  }

  lemma ExecuteBound<V>(text: string, end: nat, rest: string, values: seq<Option<V>>)
    requires text != "" && text[0] == '$' && DigitsEnd(text, 1) == end > 1 && text[end..] == rest
    ensures Execute(text, values) == [ReadAt(values, Value(text[1..end]))] + Execute(rest, values)
  {
  }

  // A dollar sign directly before a digit.
  predicate DollarDigit(s: string) {
    |s| > 1 && ((s[0] == '$' && IsDigit(s[1])) || DollarDigit(s[1..]))
  }

  predicate Misread(ts: seq<Token>) {
    |ts| > 1 && ((ts[0] == Text('$') && ts[1].Text? && IsDigit(ts[1].c)) || Misread(ts[1..]))
  }

  // No name runs into a digit.
  ghost predicate Apart(ts: seq<Token>) {
    forall i | 0 < i < |ts| && ts[i].Text? && IsDigit(ts[i].c) :: ts[i - 1].Text?
  }

  lemma {:induction false} TokensApart(sql: string)
    ensures Apart(Tokenize(sql))
    ensures sql != "" && !IsNameChar(sql[0]) ==> Tokenize(sql)[0].Text? ==> !IsDigit(Tokenize(sql)[0].c)
  {
    if sql != "" {
      TokensApart(sql[FirstWidth(sql)..]);
    }
  }

  lemma {:induction false} NoDollarDigit(s: string, n: nat)
    requires n <= |s| && forall i | 0 <= i < n :: s[i] != '$'
    ensures DollarDigit(s) <==> DollarDigit(s[n..])
  {
    if n > 0 {
      assert s[1..][n - 1..] == s[n..];
      NoDollarDigit(s[1..], n - 1);
    }
  }

  lemma {:induction false} MisreadExactly(sql: string)
    ensures Misread(Tokenize(sql)) <==> DollarDigit(sql)
  {
    if sql != "" {
      var n := FirstWidth(sql);
      MisreadExactly(sql[n..]);
      assert Tokenize(sql)[1..] == Tokenize(sql[n..]);
      if ParamAt(sql) {
        NoDollarDigit(sql, n);
      }
    }
  }

  // A rendered token reads as that token, unless it is a dollar sign and a digit comes next.
  lemma TokenReads<V>(t: Token, names: seq<string>, rest: string, values: map<string, V>)
    requires t.Param? ==> t.name in names && (rest == "" || !IsDigit(rest[0]))
    ensures var text := RenderToken(t, names) + rest;
      var piece := match t case Text(c) => Char(c) case Param(n) => Bound(Lookup(values, n));
      && text != ""
      && if t == Text('$') && rest != "" && IsDigit(rest[0]) then
           Execute(text, Ordered(values, names)) != [] && !Execute(text, Ordered(values, names))[0].Char?
         else Execute(text, Ordered(values, names)) == [piece] + Execute(rest, Ordered(values, names))
  {
    match t
    case Param(n) => PlaceholderReads(Position(names, n) + 1, rest, Ordered(values, names));
    case Text(c) => CharReads(c, rest, Ordered(values, names));
  }

  lemma CharReads<V>(c: char, rest: string, values: seq<Option<V>>)
    ensures var r := Execute([c] + rest, values);
      if c == '$' && rest != "" && IsDigit(rest[0]) then r != [] && !r[0].Char?
      else r == [Char(c)] + Execute(rest, values)
  {
    assert ([c] + rest)[1..] == rest;
  }

  lemma {:induction false} ExecuteRendered<V>(ts: seq<Token>, names: seq<string>, values: map<string, V>)
    requires Apart(ts) && forall t | t in ts && t.Param? :: t.name in names
    ensures Execute(Render(ts, names), Ordered(values, names)) == Meaning(ts, values) <==> !Misread(ts)
    ensures ts != [] ==> Render(ts, names) != ""
    ensures ts != [] ==> if ts[0].Text? then ts[0].c == Render(ts, names)[0] else Render(ts, names)[0] == '$'
  {
    hide Execute;
    if ts != [] {
      ExecuteRendered(ts[1..], names, values);
      TokenReads(ts[0], names, Render(ts[1..], names), values);
      var text, tail := Execute(Render(ts, names), Ordered(values, names)),
        Execute(Render(ts[1..], names), Ordered(values, names));
      assert Meaning(ts, values)[1..] == Meaning(ts[1..], values);
      if ts[0] == Text('$') && |ts| > 1 && ts[1].Text? && IsDigit(ts[1].c) {
        assert Meaning(ts, values)[0].Char?;
      } else {
        assert text[1..] == tail;
      }
    } else {
      EmptyReads(Ordered(values, names));
    }
  }

  lemma EmptyReads<V>(values: seq<Option<V>>)
    ensures Execute("", values) == []
  {
  }

  // Compilation preserves meaning exactly when no dollar sign of the statement's own stands before a
  // digit: such a one is read as a placeholder.
  lemma CompiledMeansTheSame<V>(sql: string, values: map<string, V>)
    ensures var ts := Tokenize(sql);
      (forall t | t in ts && t.Param? :: t.name in Names(ts))
      && (Execute(Render(ts, Names(ts)), Ordered(values, Names(ts))) == Meaning(ts, values) <==> !DollarDigit(sql))
  {
    NamesExactly(Tokenize(sql));
    TokensApart(sql);
    MisreadExactly(sql);
    ExecuteRendered(Tokenize(sql), Names(Tokenize(sql)), values);
  }

  // Replacing placeholder k by value k in the token list gives what replacing names gives, for
  // every statement, with or without dollar signs.
  lemma PlaceholdersMeanNames<V>(ts: seq<Token>, values: map<string, V>, i: nat)
    requires i < |ts| && ts[i].Param?
    ensures ts[i].name in Names(ts)
    ensures var k, name := Position(Names(ts), ts[i].name) + 1, ts[i].name;
      && 1 <= k <= |Ordered(values, Names(ts))|
      && Ordered(values, Names(ts))[k - 1] == if name in values then Some(values[name]) else None
  {
    NamesExactly(ts);
    assert ts[i] in ts;
  }

  // Indexes are given out in the order in which names first occur.
  lemma {:induction false} FirstOccurrenceOrder(ts: seq<Token>, i: nat, j: nat)
    requires i < j < |Names(ts)|
    ensures exists a :: 0 <= a < |ts| && ts[a] == Param(Names(ts)[i]) && Param(Names(ts)[j]) !in ts[..a + 1]
  {
    NamesExactly(ts[..|ts| - 1]);
    var last, before := ts[|ts| - 1], ts[..|ts| - 1];
    if j < |Names(before)| {
      FirstOccurrenceOrder(before, i, j);
      var a :| 0 <= a < |before| && before[a] == Param(Names(before)[i]) && Param(Names(before)[j]) !in before[..a + 1];
      assert ts[..a + 1] == before[..a + 1];
    } else {
      assert Param(Names(ts)[i]) in before;
      var a :| 0 <= a < |before| && before[a] == Param(Names(ts)[i]);
      assert forall t | t in ts[..a + 1] :: t in before;
    }
  }

  // ------------------------------------------------------------------------------------------
  // Positional parameters: the n-th question mark becomes $n, the values are passed on.

  // n question marks come before this text.
  function Positional(sql: string, n: nat): string {
    if sql == "" then ""
    else if sql[0] == '?' then Placeholder(n + 1) + Positional(sql[1..], n + 1)
    else [sql[0]] + Positional(sql[1..], n)
  }

  lemma PositionalTurn(text: string, sql: string, n: nat)
    requires sql != ""
    ensures text + Positional(sql, n)
         == if sql[0] == '?' then text + Placeholder(n + 1) + Positional(sql[1..], n + 1)
            else text + [sql[0]] + Positional(sql[1..], n)
  {
    hide Placeholder;
  }

  method CompilePositionalParameters<V>(sql: string, params: seq<V>) returns (text: string, values: seq<V>)
    ensures text == Positional(sql, 0) && values == params
  {
    text, values := "", params;
    var index, i := 0, 0;
    ghost var rest := sql;
    while i < |sql|
      invariant 0 <= i <= |sql| && rest == sql[i..]
      invariant Positional(sql, 0) == text + Positional(rest, index)
    {
      hide Positional, Placeholder;
      PositionalTurn(text, rest, index);
      assert rest[0] == sql[i] && rest[1..] == sql[i + 1..];
      if sql[i] == '?' {
        index := index + 1;
        text := text + Placeholder(index);
      } else {
        text := text + [sql[i]];
      }
      i, rest := i + 1, rest[1..];
    }
    assert rest == "" && text + "" == text;
  }

  // What the caller meant: the n-th question mark stands for the n-th value.
  function PositionalMeaning<V>(sql: string, n: nat, values: seq<Option<V>>): (r: seq<Piece<V>>)
    ensures |r| == |sql|
  {
    if sql == "" then []
    else if sql[0] == '?' then [ReadAt(values, n + 1)] + PositionalMeaning(sql[1..], n + 1, values)
    else [Char(sql[0])] + PositionalMeaning(sql[1..], n, values)
  }

  // A dollar sign or a question mark directly before a digit.
  predicate MarkDigit(s: string) {
    |s| > 1 && (((s[0] == '$' || s[0] == '?') && IsDigit(s[1])) || MarkDigit(s[1..]))
  }

  lemma {:induction false} DigitsCopied(sql: string, n: nat, m: nat)
    requires m <= |sql| && forall i | 0 <= i < m :: IsDigit(sql[i])
    ensures Positional(sql, n) == sql[..m] + Positional(sql[m..], n)
  {
    if m > 0 {
      DigitsCopied(sql[1..], n, m - 1);
      assert sql[1..][m - 1..] == sql[m..] && sql[..m] == [sql[0]] + sql[1..][..m - 1];
    }
  }

  lemma StartsLikeText(sql: string, n: nat)
    ensures sql == "" ==> Positional(sql, n) == ""
    ensures sql != "" ==> Positional(sql, n) != "" && Positional(sql, n)[0] == if sql[0] == '?' then '$' else sql[0]
  {
  }

  lemma DigitsEndWithin(s: string, i: nat)
    requires i <= |s|
    ensures DigitsEnd(s, i) < |s| ==> !IsDigit(s[DigitsEnd(s, i)])
    decreases |s| - i
  {
    if i < |s| && IsDigit(s[i]) {
      DigitsEndWithin(s, i + 1);
    }
  }

  lemma MarkText(sql: string, n: nat) returns (m: nat, digits: string)
    requires sql != "" && (sql[0] == '?' || (sql[0] == '$' && |sql| > 1 && IsDigit(sql[1])))
    ensures m < |sql| && (m > 0 <==> |sql| > 1 && IsDigit(sql[1])) && (1 + m < |sql| ==> !IsDigit(sql[1 + m]))
    ensures digits != "" && (forall i | 0 <= i < |digits| :: IsDigit(digits[i]))
      && (m == 0 ==> digits == Decimal(n + 1))
    ensures Positional(sql, n) == "$" + (digits + Positional(sql[1 + m..], if sql[0] == '?' then n + 1 else n))
  {
    var tail, next := sql[1..], if sql[0] == '?' then n + 1 else n;
    m := DigitsEnd(tail, 0);
    DigitsEndWithin(tail, 0);
    DigitsCopied(tail, next, m);
    assert tail[m..] == sql[1 + m..];
    var number, rest := if sql[0] == '?' then Decimal(n + 1) else "", Positional(sql[1 + m..], next);
    digits := number + tail[..m];
    assert Positional(sql, n) == ("$" + number) + Positional(tail, next);
    hide Positional, DigitsEnd, Decimal;
    assert m == 0 ==> digits == Decimal(n + 1);
    Reassociated("$", number, tail[..m], rest);
  }

  lemma Reassociated(a: string, b: string, c: string, d: string)
    ensures (a + b) + (c + d) == a + ((b + c) + d)
  {
  }

  // A mark, the digits that follow it in the statement, and the rest read as one piece and the rest.
  lemma MarkReads<V>(sql: string, n: nat, values: seq<Option<V>>) returns (m: nat)
    requires sql != "" && (sql[0] == '?' || (sql[0] == '$' && |sql| > 1 && IsDigit(sql[1])))
    ensures m < |sql| && (m > 0 <==> |sql| > 1 && IsDigit(sql[1]))
    ensures var next := if sql[0] == '?' then n + 1 else n;
      exists k :: Execute(Positional(sql, n), values) ==
        [ReadAt(values, k)] + Execute(Positional(sql[1 + m..], next), values)
                  && (m == 0 ==> k == n + 1)
  {
    hide Execute, Positional, ReadAt, Decimal;
    var digits;
    m, digits := MarkText(sql, n);
    ValueOfDecimal(n + 1);
    var next := if sql[0] == '?' then n + 1 else n;
    StartsLikeText(sql[1 + m..], next);
    DigitsRead(digits, Positional(sql[1 + m..], next), values);
    assert Execute(Positional(sql, n), values)
        == [ReadAt(values, Value(digits))] + Execute(Positional(sql[1 + m..], next), values);
  }

  // Nothing read back has more pieces than the statement has characters, and fewer as soon as a mark
  // swallows a digit.
  lemma {:induction false} ReadLength<V>(sql: string, n: nat, values: seq<Option<V>>)
    ensures |Execute(Positional(sql, n), values)| <= |sql|
    ensures MarkDigit(sql) ==> |Execute(Positional(sql, n), values)| < |sql|
    decreases |sql|
  {
    hide Execute;
    if sql == "" {
      EmptyReads(values);
    } else if sql[0] == '?' || (sql[0] == '$' && |sql| > 1 && IsDigit(sql[1])) {
      var m := MarkReads(sql, n, values);
      ReadLength(sql[1 + m..], if sql[0] == '?' then n + 1 else n, values);
    } else {
      StartsLikeText(sql[1..], n);
      CharReads(sql[0], Positional(sql[1..], n), values);
      ReadLength(sql[1..], n, values);
    }
  }

  lemma {:induction false} ReadAsMeant<V>(sql: string, n: nat, values: seq<Option<V>>)
    requires !MarkDigit(sql)
    ensures Execute(Positional(sql, n), values) == PositionalMeaning(sql, n, values)
    decreases |sql|
  {
    hide Execute;
    if sql == "" {
      EmptyReads(values);
    } else if sql[0] == '?' {
      var m := MarkReads(sql, n, values);
      ReadAsMeant(sql[1..], n + 1, values);
    } else {
      StartsLikeText(sql[1..], n);
      CharReads(sql[0], Positional(sql[1..], n), values);
      ReadAsMeant(sql[1..], n, values);
    }
  }

  // Positional compilation preserves meaning exactly when neither a dollar sign nor a question mark
  // stands before a digit: the digit would become part of the placeholder's number.
  lemma PositionalMeansTheSame<V>(sql: string, values: seq<Option<V>>)
    ensures Execute(Positional(sql, 0), values) == PositionalMeaning(sql, 0, values) <==> !MarkDigit(sql)
  {
    ReadLength(sql, 0, values);
    if !MarkDigit(sql) {
      ReadAsMeant(sql, 0, values);
    }
  }
}
