/**
 Database, role and label names built from a tenant id and its subdomain. Unicode lower-casing and
 SHA-256 are functions given from outside.
 */
module Identifiers {
  import opened Outcomes
  import Text

  predicate Alnum(c: char) {
    'a' <= c <= 'z' || '0' <= c <= '9'
  }

  predicate Hex(c: char) {
    'a' <= c <= 'f' || '0' <= c <= '9'
  }

  ghost predicate All(s: string, ok: char -> bool) {
    forall i | 0 <= i < |s| :: ok(s[i])
  }

  predicate NameChar(c: char) {
    Alnum(c) || c == '_'
  }

  predicate IsUnderscore(c: char) {
    c == '_'
  }

  predicate NotAlnum(c: char) {
    !Alnum(c)
  }

  predicate LabelChar(c: char) {
    Alnum(c) || c == '.' || c == '-'
  }

  // Each maximal run of other characters becomes one filler.
  function Squeezed(s: string, ok: char -> bool, filler: char, inRun: bool): (r: string)
    ensures forall i | 0 <= i < |r| :: ok(r[i]) || r[i] == filler
  {
    if s == "" then ""
    else if ok(s[0]) then [s[0]] + Squeezed(s[1..], ok, filler, false)
    else (if inRun then "" else [filler]) + Squeezed(s[1..], ok, filler, true)
  }

  // A text is squeezed run by run: what is kept stays, and as many others as there are in a row become one
  // filler.
  lemma SqueezedExactly(run: string, rest: string, ok: char -> bool, filler: char)
    ensures Squeezed("", ok, filler, false) == ""
    ensures All(run, ok) ==> Squeezed(run + rest, ok, filler, false) == run + Squeezed(rest, ok, filler, false)
    ensures NoneOf(run, ok) && run != "" && (rest == "" || ok(rest[0])) ==>
      Squeezed(run + rest, ok, filler, false) == [filler] + Squeezed(rest, ok, filler, false)
  {
    if All(run, ok) {
      KeptRun(run, rest, ok, filler);
    }
    if NoneOf(run, ok) && run != "" && (rest == "" || ok(rest[0])) {
      assert (run + rest)[1..] == run[1..] + rest;
      DroppedRun(run[1..], rest, ok, filler);
    }
  }

  ghost predicate NoneOf(s: string, ok: char -> bool) {
    forall i | 0 <= i < |s| :: !ok(s[i])
  }

  lemma {:induction false} KeptRun(run: string, rest: string, ok: char -> bool, filler: char)
    requires All(run, ok)
    ensures Squeezed(run + rest, ok, filler, false) == run + Squeezed(rest, ok, filler, false)
  {
    if run == "" {
      assert run + rest == rest;
    } else {
      assert (run + rest)[1..] == run[1..] + rest;
      KeptRun(run[1..], rest, ok, filler);
      assert run == [run[0]] + run[1..];
    }
  }

  lemma {:induction false} DroppedRun(run: string, rest: string, ok: char -> bool, filler: char)
    requires NoneOf(run, ok) && (rest == "" || ok(rest[0]))
    ensures Squeezed(run + rest, ok, filler, true) == Squeezed(rest, ok, filler, false)
  {
    if run == "" {
      assert run + rest == rest;
    } else {
      assert (run + rest)[1..] == run[1..] + rest;
      DroppedRun(run[1..], rest, ok, filler);
    }
  }

  function StripStart(s: string, drop: char -> bool): (r: string)
    ensures |r| <= |s| && forall i | 0 <= i < |r| :: r[i] == s[|s| - |r| + i]
    ensures r == "" || !drop(r[0])
  {
    if s != "" && drop(s[0]) then StripStart(s[1..], drop) else s
  }

  function StripEnd(s: string, drop: char -> bool): (r: string)
    ensures |r| <= |s| && forall i | 0 <= i < |r| :: r[i] == s[i]
    ensures r == "" || !drop(r[|r| - 1])
    ensures forall i | |r| <= i < |s| :: drop(s[i])
  {
    if s != "" && drop(s[|s| - 1]) then StripEnd(s[..|s| - 1], drop) else s
  }

  lemma StripEndKeeps(s: string, drop: char -> bool)
    requires s == "" || !drop(s[|s| - 1])
    ensures StripEnd(s, drop) == s
  {
  }

  function Cut(s: string, n: nat): (r: string)
    ensures |r| == if |s| <= n then |s| else n
    ensures forall i | 0 <= i < |r| :: r[i] == s[i]
  {
    if |s| <= n then s else s[..n]
  }

  // The characters, by their codes.
  lemma CharsExactly(c: char)
    ensures Alnum(c) <==> 48 <= c as int < 58 || 97 <= c as int < 123
    ensures Hex(c) <==> 48 <= c as int < 58 || 97 <= c as int < 103
    ensures NameChar(c) <==> Alnum(c) || c as int == 95
    ensures LabelChar(c) <==> Alnum(c) || c as int == 45 || c as int == 46
  {
  }

  // The id's part of a name: lower-cased, squeezed, stripped, cut.
  function IdPart(lower: string -> string, tenantId: string, n: nat): string {
    Cut(StripEnd(StripStart(Squeezed(lower(tenantId), Alnum, '_', false), IsUnderscore), IsUnderscore), n)
  }

  function Underscored(s: string): (r: string)
    ensures |r| == |s| && forall i | 0 <= i < |s| :: r[i] == if s[i] == '-' then '_' else s[i]
  {
    if s == "" then "" else [if s[0] == '-' then '_' else s[0]] + Underscored(s[1..])
  }

  function UniqueIdentifier(sha256: string -> string, identifier: string): string {
    if |identifier| <= 63 then StripEnd(identifier, IsUnderscore)
    else
      var digest := Cut(sha256(identifier), 8);
      StripEnd(Cut(identifier, 63 - |digest| - 1), IsUnderscore) + "_" + digest
  }

  function Named(lower: string -> string, sha256: string -> string, kind: string, n: nat, tenantId: string,
                 subdomain: string): string
  {
    UniqueIdentifier(sha256, kind + IdPart(lower, tenantId, n) + "_" + Underscored(subdomain))
  }

  function DatabaseName(lower: string -> string, sha256: string -> string, tenantId: string, subdomain: string)
    : string
  {
    Named(lower, sha256, "tenant_", 20, tenantId, subdomain)
  }

  function RoleName(lower: string -> string, sha256: string -> string, tenantId: string, subdomain: string): string {
    Named(lower, sha256, "tenant_rt_", 18, tenantId, subdomain)
  }

  // SHA-256 as 64 lower-case hexadecimal digits
  ghost predicate Digests(sha256: string -> string) {
    forall s :: |sha256(s)| == 64 && All(sha256(s), Hex)
  }

  const MAX_SUBDOMAIN := 63 - |"dnd-notes-data-"|

  predicate ValidSubdomain(s: string) {
    && 1 <= |s| <= MAX_SUBDOMAIN
    && Alnum(s[0]) && Alnum(s[|s| - 1])
    && forall i | 0 <= i < |s| :: Alnum(s[i]) || s[i] == '-'
  }

  // The pattern of a subdomain, by the codes of its characters.
  lemma SubdomainExactly(s: string)
    ensures ValidSubdomain(s) <==>
      && 0 < |s| < 49 && s[0] != '-' && s[|s| - 1] != '-'
      && forall i | 0 <= i < |s| :: 48 <= s[i] as int < 58 || 97 <= s[i] as int < 123 || s[i] as int == 45
  {
  }

  // "t-" and the hexadecimal digits of six random bytes
  function Generated(digits: string): string {
    "t-" + digits
  }

  ghost predicate SixBytes(digits: string) {
    |digits| == 12 && All(digits, Hex)
  }

  // ------------------------------------------------------------------------------------------

  predicate Expected(name: string) {
    |name| <= 63 && |name| > 7 && name[..7] == "tenant_" && forall i | 0 <= i < |name| :: NameChar(name[i])
  }

  datatype ResolveError = NoReference | Unexpected(reference: string)

  function ResolveTenantDatabaseName(storageReference: Option<string>): Result<string, ResolveError> {
    var reference := if storageReference.Some? then Text.Trim(storageReference.value) else "";
    if |reference| == 0 then Err(NoReference)
    else if !Expected(reference) then Err(Unexpected(reference))
    else Ok(reference)
  }

  // What the backup runner reads from a stored reference, and when it refuses one.
  lemma ResolveExactly(storageReference: Option<string>, name: string)
    ensures var r := ResolveTenantDatabaseName(storageReference);
      var trimmed := match storageReference case Some(s) => Text.Trim(s) case None => "";
      var expected := 8 <= |name| <= 63 && "tenant_" <= name
                      && forall i | 0 <= i < |name| :: 'a' <= name[i] <= 'z' || '0' <= name[i] <= '9' || name[i] == '_';
      && (r == Err(NoReference) <==> trimmed == "")
      && (r == Ok(name) <==> name == trimmed && expected)
      && (r == Err(Unexpected(name)) <==> name == trimmed && trimmed != "" && !expected)
  {
    hide Text.Trim;
    assert |name| >= 7 ==> (name[..7] == "tenant_" <==> "tenant_" <= name);
  }

  // What quoteIdentifier lets through.
  ghost predicate Quotable(name: string) {
    name != "" && All(name, NameChar)
  }

  lemma IdPartChars(lower: string -> string, tenantId: string, n: nat)
    ensures |IdPart(lower, tenantId, n)| <= n && All(IdPart(lower, tenantId, n), NameChar)
  {
    hide Squeezed, StripStart, StripEnd, Cut;
    var squeezed := Squeezed(lower(tenantId), Alnum, '_', false);
    var stripped := StripStart(squeezed, IsUnderscore);
    forall i | 0 <= i < |stripped| ensures NameChar(stripped[i]) {
      assert stripped[i] == squeezed[|squeezed| - |stripped| + i];
    }
  }

  // Making an identifier unique keeps its beginning, up to a character that is no underscore.
  lemma UniqueFits(sha256: string -> string, identifier: string, at: nat)
    requires Digests(sha256) && All(identifier, NameChar) && 7 <= at < 54 && at < |identifier|
    requires identifier[at] != '_' && identifier[|identifier| - 1] != '_'
    ensures var name := UniqueIdentifier(sha256, identifier);
      at < |name| <= 63 && All(name, NameChar) && forall i | 0 <= i < at :: name[i] == identifier[i]
  {
    hide StripEnd, Cut;
    if |identifier| <= 63 {
      StripEndKeeps(identifier, IsUnderscore);
    } else {
      var head := Cut(identifier, 54);
      var kept := StripEnd(head, IsUnderscore);
      assert head[at] != '_';
      assert UniqueIdentifier(sha256, identifier) == kept + "_" + Cut(sha256(identifier), 8);
    }
  }

  // Every name is short enough and of the right characters, whether cut with a digest or not.
  lemma NamedFits(lower: string -> string, sha256: string -> string, kind: string, n: nat, tenantId: string,
                  subdomain: string)
    requires Digests(sha256) && ValidSubdomain(subdomain) && n <= 20
    requires 7 <= |kind| <= 10 && kind[..7] == "tenant_" && All(kind, NameChar)
    ensures var name := Named(lower, sha256, kind, n, tenantId, subdomain);
      Expected(name) && Quotable(name)
  {
    hide IdPart, Underscored, UniqueIdentifier, Digests;
    IdPartChars(lower, tenantId, n);
    var id, sub := IdPart(lower, tenantId, n), Underscored(subdomain);
    var identifier := kind + id + "_" + sub;
    var at := |kind| + |id| + 1;
    assert identifier[at] == sub[0] && identifier[|identifier| - 1] == sub[|sub| - 1];
    UniqueFits(sha256, identifier, at);
    var name := UniqueIdentifier(sha256, identifier);
    assert forall i | 0 <= i < 7 :: name[i] == identifier[i] == kind[..7][i];
  }

  lemma NamesFit(lower: string -> string, sha256: string -> string, tenantId: string, subdomain: string)
    requires Digests(sha256) && ValidSubdomain(subdomain)
    ensures Expected(DatabaseName(lower, sha256, tenantId, subdomain))
      && Quotable(DatabaseName(lower, sha256, tenantId, subdomain))
    ensures Quotable(RoleName(lower, sha256, tenantId, subdomain))
      && |RoleName(lower, sha256, tenantId, subdomain)| <= 63
  {
    hide Named;
    NamedFits(lower, sha256, "tenant_", 20, tenantId, subdomain);
    NamedFits(lower, sha256, "tenant_rt_", 18, tenantId, subdomain);
  }

  // The backup runner accepts every database name that provisioning stores, and reads it unchanged.
  lemma RunnerAccepts(lower: string -> string, sha256: string -> string, tenantId: string, subdomain: string)
    requires Digests(sha256) && ValidSubdomain(subdomain)
    ensures var name := DatabaseName(lower, sha256, tenantId, subdomain);
      ResolveTenantDatabaseName(Some(name)) == Ok(name)
  {
    hide DatabaseName;
    NamesFit(lower, sha256, tenantId, subdomain);
    ExpectedResolves(DatabaseName(lower, sha256, tenantId, subdomain));
  }

  lemma ExpectedResolves(name: string)
    requires Expected(name)
    ensures ResolveTenantDatabaseName(Some(name)) == Ok(name)
  {
    hide Text.Trim;
    assert NameChar(name[0]) && NameChar(name[|name| - 1]);
    Text.TrimKeeps(name);
  }

  // ------------------------------------------------------------------------------------------
  // Names of different tenants.

  lemma GeneratedIsValid(digits: string)
    requires SixBytes(digits)
    ensures ValidSubdomain(Generated(digits)) && |Generated(digits)| == 14
  {
    var s := Generated(digits);
    assert forall i | 2 <= i < |s| :: s[i] == digits[i - 2];
  }

  // Of a subdomain of up to 35 characters the name keeps the whole, at its end.
  lemma NameEndsWithSubdomain(lower: string -> string, sha256: string -> string, tenantId: string, subdomain: string)
    requires ValidSubdomain(subdomain) && |subdomain| <= 35
    ensures var name := DatabaseName(lower, sha256, tenantId, subdomain);
      |name| >= |subdomain| && name[|name| - |subdomain|..] == Underscored(subdomain)
  {
    hide IdPart, Underscored, StripEnd;
    IdPartChars(lower, tenantId, 20);
    var id, sub := IdPart(lower, tenantId, 20), Underscored(subdomain);
    var identifier := "tenant_" + id + "_" + sub;
    assert identifier[|identifier| - 1] == sub[|sub| - 1];
    StripEndKeeps(identifier, IsUnderscore);
    assert identifier[|identifier| - |sub|..] == sub;
  }

  lemma UnderscoredInjective(a: string, b: string)
    requires ValidSubdomain(a) && ValidSubdomain(b) && Underscored(a) == Underscored(b)
    ensures a == b
  {
    hide Underscored;
    assert |a| == |b|;
    forall i | 0 <= i < |a| ensures a[i] == b[i] {
      assert Underscored(a)[i] == Underscored(b)[i];
    }
  }

  // Tenants whose subdomains are of one length, up to 35, get different databases if the subdomains
  // differ, whatever their ids.
  lemma DistinctDatabases(lower: string -> string, sha256: string -> string, idA: string, a: string, idB: string,
                          b: string)
    requires ValidSubdomain(a) && ValidSubdomain(b) && a != b && |a| == |b| <= 35
    ensures DatabaseName(lower, sha256, idA, a) != DatabaseName(lower, sha256, idB, b)
  {
    hide DatabaseName, Underscored;
    NameEndsWithSubdomain(lower, sha256, idA, a);
    NameEndsWithSubdomain(lower, sha256, idB, b);
    if DatabaseName(lower, sha256, idA, a) == DatabaseName(lower, sha256, idB, b) {
      UnderscoredInjective(a, b);
    }
  }

  lemma GeneratedDatabasesDistinct(lower: string -> string, sha256: string -> string, idA: string, a: string,
                                   idB: string, b: string)
    requires SixBytes(a) && SixBytes(b) && a != b
    ensures DatabaseName(lower, sha256, idA, Generated(a)) != DatabaseName(lower, sha256, idB, Generated(b))
  {
    GeneratedIsValid(a);
    GeneratedIsValid(b);
    assert Generated(a)[2..] == a && Generated(b)[2..] == b;
    DistinctDatabases(lower, sha256, idA, Generated(a), idB, Generated(b));
  }

  // ------------------------------------------------------------------------------------------
  // Which valid subdomains let two ids share a database.

  // a is b with more in front, up to a dash: at most 18 characters, without a double dash.
  predicate Overlaps(a: string, b: string) {
    var h := |a| - |b| - 1;
    1 <= h <= 18 && a[h] == '-' && a[h + 1..] == b && forall i | 0 < i < h :: a[i - 1] != '-' || a[i] != '-'
  }

  ghost predicate Single(s: string) {
    forall i | 0 < i < |s| :: s[i - 1] != '_' || s[i] != '_'
  }

  lemma {:induction false} SqueezedSingle(s: string, inRun: bool)
    ensures var r := Squeezed(s, Alnum, '_', inRun);
      Single(r) && (inRun && r != "" ==> r[0] != '_')
  {
    if s != "" {
      SqueezedSingle(s[1..], !Alnum(s[0]));
    }
  }

  lemma {:induction false} SqueezedKeeps(s: string, inRun: bool)
    requires All(s, NameChar) && Single(s) && (inRun && s != "" ==> s[0] != '_')
    ensures Squeezed(s, Alnum, '_', inRun) == s
  {
    if s != "" {
      assert NameChar(s[0]) && s == [s[0]] + s[1..];
      SqueezedKeeps(s[1..], !Alnum(s[0]));
    }
  }

  lemma IdPartSingle(lower: string -> string, tenantId: string)
    ensures var p := IdPart(lower, tenantId, 20);
      Single(p) && (p != "" ==> p[0] != '_')
  {
    hide Squeezed, StripStart, StripEnd, Cut;
    SqueezedSingle(lower(tenantId), false);
    var squeezed := Squeezed(lower(tenantId), Alnum, '_', false);
    var headed := StripStart(squeezed, IsUnderscore);
    var stripped := StripEnd(headed, IsUnderscore);
    assert Single(headed) by {
      assert forall i | 0 <= i < |headed| :: headed[i] == squeezed[|squeezed| - |headed| + i];
    }
  }

  // An id of such characters is its own part of the name, cut to 20.
  lemma IdPartKeeps(lower: string -> string, id: string)
    requires lower(id) == id && id != "" && All(id, NameChar) && Single(id) && id[0] != '_' && id[|id| - 1] != '_'
    ensures IdPart(lower, id, 20) == Cut(id, 20)
  {
    SqueezedKeeps(id, false);
    hide Squeezed, Cut;
    StripEndKeeps(id, IsUnderscore);
  }

  // Up to 35 characters of subdomain leave the identifier whole.
  lemma WholeName(lower: string -> string, sha256: string -> string, tenantId: string, subdomain: string)
    requires ValidSubdomain(subdomain) && |subdomain| <= 35
    ensures DatabaseName(lower, sha256, tenantId, subdomain)
         == "tenant_" + IdPart(lower, tenantId, 20) + "_" + Underscored(subdomain)
  {
    hide IdPart, Underscored, UniqueIdentifier, ValidSubdomain;
    var id, sub := IdPart(lower, tenantId, 20), Underscored(subdomain);
    assert |id| <= 20 by { IdPartChars(lower, tenantId, 20); }
    assert sub != "" && sub[|sub| - 1] != '_' by { UnderscoredEnds(subdomain); }
    var identifier := "tenant_" + id + "_" + sub;
    assert identifier[|identifier| - 1] == sub[|sub| - 1];
    ShortIdentifier(sha256, identifier);
  }

  lemma UnderscoredEnds(subdomain: string)
    requires ValidSubdomain(subdomain)
    ensures Underscored(subdomain) != "" && Underscored(subdomain)[|subdomain| - 1] != '_'
  {
    hide Underscored;
  }

  lemma ShortIdentifier(sha256: string -> string, identifier: string)
    requires 0 < |identifier| <= 63 && identifier[|identifier| - 1] != '_'
    ensures UniqueIdentifier(sha256, identifier) == identifier
  {
    hide StripEnd;
    StripEndKeeps(identifier, IsUnderscore);
  }

  lemma SharedOverlaps(lower: string -> string, sha256: string -> string, idA: string, a: string, idB: string,
                       b: string)
    requires ValidSubdomain(a) && ValidSubdomain(b) && |b| < |a| <= 35
    requires DatabaseName(lower, sha256, idA, a) == DatabaseName(lower, sha256, idB, b)
    ensures Overlaps(a, b)
  {
    hide IdPart, Underscored, DatabaseName;
    WholeName(lower, sha256, idA, a);
    WholeName(lower, sha256, idB, b);
    IdPartSingle(lower, idB);
    IdPartChars(lower, idB, 20);
    var p, q := IdPart(lower, idA, 20), IdPart(lower, idB, 20);
    var one, two := "tenant_" + p + "_" + Underscored(a), "tenant_" + q + "_" + Underscored(b);
    assert one == two;
    var h := |a| - |b| - 1;
    assert |q| == |p| + 1 + h;
    assert two[7 + |p|] == one[7 + |p|] == '_';
    assert h >= 0 ==> Underscored(a)[h] == one[8 + |p| + h] == two[7 + |q|] == '_';
    forall i | 0 <= i < h ensures Underscored(a)[i] == q[|p| + 1 + i] {
      assert one[8 + |p| + i] == two[8 + |p| + i];
    }
    assert a[h + 1..] == b by {
      forall i | 0 <= i < |b| ensures a[h + 1 + i] == b[i] {
        assert Underscored(a)[h + 1 + i] == one[8 + |p| + h + 1 + i] == two[8 + |q| + i] == Underscored(b)[i];
      }
    }
    forall i | 0 < i < h ensures a[i - 1] != '-' || a[i] != '-' {
      assert q[|p| + i] == Underscored(a)[i - 1] && q[|p| + 1 + i] == Underscored(a)[i];
    }
  }

  function Repeated(c: char, n: nat): (r: string)
    ensures |r| == n && forall i | 0 <= i < n :: r[i] == c
  {
    if n == 0 then "" else [c] + Repeated(c, n - 1)
  }

  // What JavaScript's toLowerCase does to names.
  ghost predicate KeepsNames(lower: string -> string) {
    forall s :: All(s, NameChar) ==> lower(s) == s
  }

  lemma OverlapShares(lower: string -> string, sha256: string -> string, a: string, b: string)
    returns (idA: string, idB: string)
    requires KeepsNames(lower) && ValidSubdomain(a) && ValidSubdomain(b) && |a| <= 35 && Overlaps(a, b)
    ensures DatabaseName(lower, sha256, idA, a) == DatabaseName(lower, sha256, idB, b)
  {
    hide DatabaseName, IdPart, Repeated;
    var h := |a| - |b| - 1;
    var front := Repeated('x', 19 - h);
    idA, idB := front, Fronted(a, h, front);
    FrontedChars(a, h, front);
    OverlapSingle(a, b, front);
    IdPartKeeps(lower, idA);
    IdPartKeeps(lower, idB);
    WholeName(lower, sha256, idA, a);
    WholeName(lower, sha256, idB, b);
    OverlapUnderscored(a, b);
    hide Fronted, Cut;
    SameIdentifier(Underscored(a)[..h], Underscored(b), front);
    assert Cut(idA, 20) == front && Cut(idB, 20) == front + "_" + Underscored(a)[..h] by { FrontedCut(a, h, front); }
  }

  // An id whose part of the name ends with the first h characters of a.
  function Fronted(a: string, h: nat, front: string): string
    requires h <= |a|
  {
    front + "_" + Underscored(a)[..h] + "x"
  }

  lemma FrontedCut(a: string, h: nat, front: string)
    requires h <= |a| && |front| + 1 + h == 20
    ensures Cut(front, 20) == front && Cut(Fronted(a, h, front), 20) == front + "_" + Underscored(a)[..h]
  {
    hide Underscored;
    var id := front + "_" + Underscored(a)[..h];
    assert Fronted(a, h, front) == id + "x" && |id| == 20;
    assert (id + "x")[..20] == id;
  }

  lemma SameIdentifier(head: string, tail: string, front: string)
    ensures "tenant_" + front + "_" + (head + "_" + tail) == "tenant_" + (front + "_" + head) + "_" + tail
  {
  }

  lemma FrontedAt(a: string, h: nat, front: string)
    requires h <= |a|
    ensures var id, n := Fronted(a, h, front), |front|;
      && |id| == n + h + 2 && id[n] == '_' && id[n + h + 1] == 'x'
      && (forall i | 0 <= i < n :: id[i] == front[i])
      && forall i | n < i <= n + h :: id[i] == Underscored(a)[i - n - 1]
  {
    hide Underscored;
  }

  lemma FrontedChars(a: string, h: nat, front: string)
    requires ValidSubdomain(a) && h <= |a| && forall i | 0 <= i < |front| :: front[i] == 'x'
    ensures All(Fronted(a, h, front), NameChar) && All(front, NameChar) && Single(front)
  {
    hide Underscored;
    FrontedAt(a, h, front);
    hide Fronted;
  }

  lemma {:induction false} UnderscoredTail(s: string, k: nat)
    requires k <= |s|
    ensures Underscored(s)[k..] == Underscored(s[k..])
  {
    if k > 0 {
      UnderscoredTail(s[1..], k - 1);
      assert s[1..][k - 1..] == s[k..] && Underscored(s)[1..][k - 1..] == Underscored(s)[k..];
      assert Underscored(s)[1..] == Underscored(s[1..]);
    } else {
      assert s[0..] == s;
    }
  }

  lemma OverlapUnderscored(a: string, b: string)
    requires Overlaps(a, b)
    ensures Underscored(a) == Underscored(a)[..|a| - |b| - 1] + "_" + Underscored(b)
  {
    hide Underscored;
    var h := |a| - |b| - 1;
    UnderscoredTail(a, h + 1);
    SplitAround(Underscored(a), h);
  }

  lemma SplitAround(s: string, i: nat)
    requires i < |s|
    ensures s == s[..i] + [s[i]] + s[i + 1..]
  {
  }

  lemma OverlapSingle(a: string, b: string, front: string)
    requires ValidSubdomain(a) && Overlaps(a, b) && front != "" && forall i | 0 <= i < |front| :: front[i] == 'x'
    ensures Single(Fronted(a, |a| - |b| - 1, front))
  {
    hide Underscored;
    var h, n := |a| - |b| - 1, |front|;
    var id := Fronted(a, h, front);
    FrontedAt(a, h, front);
    hide Fronted;
    forall i | 0 < i < |id| ensures id[i - 1] != '_' || id[i] != '_' {
      if n < i <= n + h {
        assert id[i] == Underscored(a)[i - n - 1];
        assert i > n + 1 ==> id[i - 1] == Underscored(a)[i - n - 2];
      }
    }
  }

  // Some two tenants with different valid subdomains of up to 35 characters share a database if and
  // only if one subdomain ends with the other, after a dash and at most 18 characters without a double
  // dash. Generated subdomains, all of one length, never do.
  lemma SharedExactly(lower: string -> string, sha256: string -> string, a: string, b: string)
    requires KeepsNames(lower) && ValidSubdomain(a) && ValidSubdomain(b) && a != b && |a| <= 35 && |b| <= 35
    ensures (exists idA, idB :: DatabaseName(lower, sha256, idA, a) == DatabaseName(lower, sha256, idB, b))
       <==> Overlaps(a, b) || Overlaps(b, a)
  {
    hide DatabaseName, ValidSubdomain, Overlaps, KeepsNames;
    if idA, idB :| DatabaseName(lower, sha256, idA, a) == DatabaseName(lower, sha256, idB, b) {
      if |a| == |b| {
        DistinctDatabases(lower, sha256, idA, a, idB, b);
      } else if |a| > |b| {
        SharedOverlaps(lower, sha256, idA, a, idB, b);
      } else {
        SharedOverlaps(lower, sha256, idB, b, idA, a);
      }
    }
    if Overlaps(a, b) {
      var idA, idB := OverlapShares(lower, sha256, a, b);
    }
    if Overlaps(b, a) {
      var idB, idA := OverlapShares(lower, sha256, b, a);
    }
  }

  // ------------------------------------------------------------------------------------------
  // Label values.

  function LabelValue(lower: string -> string, sha256: string -> string, value: string): string {
    var normalized := StripEnd(StripStart(Squeezed(lower(value), LabelChar, '-', false), NotAlnum), NotAlnum);
    if normalized == "" then "tenant-" + Cut(sha256(value), 12)
    else if |normalized| <= 63 then normalized
    else StripEnd(Cut(normalized, 54), NotAlnum) + "-" + Cut(sha256(value), 8)
  }

  // What a label is made of: the value lower-cased and squeezed, less everything up to its first letter or digit
  // and after its last; a digest of the value when that leaves nothing; and when it leaves too much, its first
  // 54 characters, less those after the last letter or digit of them, and a digest.
  lemma LabelExactly(lower: string -> string, sha256: string -> string, value: string)
    returns (pre: string, normalized: string, post: string, kept: string, cut: string)
    requires Digests(sha256)
    ensures Squeezed(lower(value), LabelChar, '-', false) == pre + normalized + post
    ensures NoneOf(pre, Alnum) && NoneOf(post, Alnum)
    ensures normalized == "" || (Alnum(normalized[0]) && Alnum(normalized[|normalized| - 1]))
    ensures |normalized| > 63 ==> EndsAt(normalized[..54], kept, cut)
    ensures LabelValue(lower, sha256, value)
         == if normalized == "" then "tenant-" + sha256(value)[..12]
            else if |normalized| <= 63 then normalized
            else kept + "-" + sha256(value)[..8]
  {
    hide Squeezed, StripStart, StripEnd, LabelChar, Alnum, NoneOf, Cut, EndsAt;
    pre, normalized, post := Stripped(Squeezed(lower(value), LabelChar, '-', false));
    kept, cut := "", "";
    if normalized == "" {
      CutIs(sha256(value), 12);
    } else if |normalized| > 63 {
      CutIs(normalized, 54);
      CutIs(sha256(value), 8);
      kept, cut := EndStripped(normalized[..54]);
    }
  }

  lemma CutIs(s: string, n: nat)
    requires n <= |s|
    ensures Cut(s, n) == s[..n]
  {
  }

  // kept ends with the last letter or digit of s, and cut is what comes after it.
  ghost predicate EndsAt(s: string, kept: string, cut: string) {
    s == kept + cut && NoneOf(cut, Alnum) && (kept == "" || Alnum(kept[|kept| - 1]))
  }

  lemma EndStripped(s: string) returns (kept: string, cut: string)
    ensures EndsAt(s, kept, cut) && kept == StripEnd(s, NotAlnum)
  {
    hide StripEnd;
    kept := StripEnd(s, NotAlnum);
    cut := s[|kept|..];
    assert s[..|kept|] == kept;
    assert forall i | 0 <= i < |cut| :: cut[i] == s[|kept| + i];
  }

  lemma Stripped(s: string) returns (pre: string, t: string, post: string)
    ensures t == StripEnd(StripStart(s, NotAlnum), NotAlnum) && s == pre + t + post
    ensures NoneOf(pre, Alnum) && NoneOf(post, Alnum) && (t == "" || (Alnum(t[0]) && Alnum(t[|t| - 1])))
  {
    hide NoneOf, StripStart, StripEnd, Alnum;
    var headed;
    pre, headed := HeadStripped(s);
    t, post := EndStripped(headed);
    FirstKept(headed, t, post);
    Rejoined(pre, t, post);
  }

  lemma HeadStripped(s: string) returns (pre: string, headed: string)
    ensures headed == StripStart(s, NotAlnum) && s == pre + headed
    ensures NoneOf(pre, Alnum) && (headed == "" || Alnum(headed[0]))
  {
    hide StripStart;
    headed := StripStart(s, NotAlnum);
    StripStartDrops(s, NotAlnum);
    pre := s[..|s| - |headed|];
    assert s[|s| - |headed|..] == headed;
  }

  lemma FirstKept(s: string, kept: string, cut: string)
    requires s == kept + cut && (s == "" || Alnum(s[0]))
    ensures kept == "" || Alnum(kept[0])
  {
  }

  lemma Rejoined(a: string, b: string, c: string)
    ensures a + (b + c) == a + b + c
  {
  }

  lemma {:induction false} StripStartDrops(s: string, drop: char -> bool)
    ensures forall i | 0 <= i < |s| - |StripStart(s, drop)| :: drop(s[i])
  {
    if s != "" && drop(s[0]) {
      StripStartDrops(s[1..], drop);
    }
  }

  // A Kubernetes label value: alphanumeric at both ends, at most 63 characters.
  ghost predicate ValidLabel(s: string) {
    1 <= |s| <= 63 && Alnum(s[0]) && Alnum(s[|s| - 1]) && All(s, LabelChar)
  }

  lemma LabelIsValid(lower: string -> string, sha256: string -> string, value: string)
    requires Digests(sha256)
    ensures ValidLabel(LabelValue(lower, sha256, value))
  {
    hide Squeezed, StripStart, StripEnd, Cut, LabelChar;
    var squeezed := Squeezed(lower(value), LabelChar, '-', false);
    var headed := StripStart(squeezed, NotAlnum);
    var normalized := StripEnd(headed, NotAlnum);
    assert LabelChar('-') by { DashIsLabelChar(); }
    forall i | 0 <= i < |normalized| ensures LabelChar(normalized[i]) {
      assert normalized[i] == headed[i] == squeezed[|squeezed| - |headed| + i];
    }
    if normalized == "" {
      DashIsLabelChar();
      DigestLabel(sha256, "tenant", value, 12);
      assert "tenant" + "-" + Cut(sha256(value), 12) == "tenant-" + Cut(sha256(value), 12);
    } else if |normalized| > 63 {
      var head := Cut(normalized, 54);
      assert head[0] == normalized[0] == headed[0];
      DigestLabel(sha256, StripEnd(head, NotAlnum), value, 8);
    }
  }

  lemma DashIsLabelChar()
    ensures LabelChar('-') && forall c | Alnum(c) :: LabelChar(c)
  {
  }

  // A digest after a dash ends a label well.
  lemma DigestLabel(sha256: string -> string, head: string, value: string, n: nat)
    requires Digests(sha256) && 1 <= n <= 12 && 1 <= |head| <= 62 - n && Alnum(head[0]) && All(head, LabelChar)
    ensures ValidLabel(head + "-" + Cut(sha256(value), n))
  {
    hide Cut, LabelChar, Digests;
    DashIsLabelChar();
    DigestChars(sha256, value, n);
  }

  lemma DigestChars(sha256: string -> string, value: string, n: nat)
    requires Digests(sha256) && n <= 64
    ensures |Cut(sha256(value), n)| == n && All(Cut(sha256(value), n), Alnum)
  {
  }
}
