/**
 Backup blob names: how they are built from a tenant id, read back from a location, and matched
 against backup_catalog locations.
 */
module BlobNames {
  import opened Outcomes
  import opened Text

  predicate SafeChar(c: char) {
    'a' <= c <= 'z' || 'A' <= c <= 'Z' || '0' <= c <= '9' || c == '.' || c == '_' || c == '-'
  }

  // String.prototype.toLowerCase on ASCII
  function Lower(c: char): char {
    if 'A' <= c <= 'Z' then ((c as int) + 32) as char else c
  }

  // Each maximal run of unsafe characters becomes one dash; the rest is lowered.
  function Collapsed(id: string, inRun: bool): string {
    if id == "" then ""
    else if SafeChar(id[0]) then [Lower(id[0])] + Collapsed(id[1..], false)
    else (if inRun then "" else "-") + Collapsed(id[1..], true)
  }

  function Sanitised(id: string): string {
    Collapsed(id, false)
  }

  function Dashed(timestamp: string): string {
    if timestamp == "" then ""
    else [if timestamp[0] == ':' || timestamp[0] == '.' then '-' else timestamp[0]] + Dashed(timestamp[1..])
  }

  function FileName(path: string): string {
    var parts := Split('/', path);
    parts[|parts| - 1]
  }

  function BuildBlobName(tenantId: string, sourcePath: string, capturedAt: string): string {
    Sanitised(tenantId) + "/" + (Dashed(capturedAt) + "-" + FileName(sourcePath))
  }

  function Prefix(name: string): string {
    Split('/', name)[0]
  }

  // ------------------------------------------------------------------------------------------
  // The prefix of a built name is the sanitised tenant id.

  lemma {:induction false} CollapsedSafe(id: string, inRun: bool)
    ensures forall c | c in Collapsed(id, inRun) :: SafeChar(c) && !('A' <= c <= 'Z')
  {
    if id != "" {
      CollapsedSafe(id[1..], !SafeChar(id[0]));
    }
  }

  lemma {:induction false} SafeCollapsed(id: string)
    requires forall c | c in id :: SafeChar(c) && !('A' <= c <= 'Z')
    ensures Collapsed(id, false) == id
  {
    if id != "" {
      assert id[0] in id && forall c | c in id[1..] :: c in id;
      SafeCollapsed(id[1..]);
      assert id == [id[0]] + id[1..];
    }
  }

  // Both places that sanitise an id agree on what is already sanitised.
  lemma SanitisedTwice(id: string)
    ensures Sanitised(Sanitised(id)) == Sanitised(id)
  {
    CollapsedSafe(id, false);
    SafeCollapsed(Sanitised(id));
  }

  lemma {:induction false} DashedSlashes(timestamp: string)
    requires '/' !in timestamp
    ensures '/' !in Dashed(timestamp)
  {
    if timestamp != "" {
      DashedSlashes(timestamp[1..]);
    }
  }

  ghost predicate Safe(s: string) {
    forall i | 0 <= i < |s| ::
      'a' <= s[i] <= 'z' || 'A' <= s[i] <= 'Z' || '0' <= s[i] <= '9' || s[i] == '.' || s[i] == '_' || s[i] == '-'
  }

  ghost predicate Unsafe(s: string) {
    forall i | 0 <= i < |s| :: !Safe([s[i]])
  }

  // An id is sanitised run by run: safe characters stay, upper case becoming lower case, and as many others as
  // there are in a row become one dash.
  lemma SanitisedExactly(run: string, rest: string)
    ensures Sanitised("") == ""
    ensures Safe(run) ==>
      && |Sanitised(run + rest)| == |run| + |Sanitised(rest)|
      && Sanitised(run + rest)[|run|..] == Sanitised(rest)
      && forall i | 0 <= i < |run| ::
           Sanitised(run + rest)[i] == if 'A' <= run[i] <= 'Z' then ((run[i] as int) + 32) as char else run[i]
    ensures Unsafe(run) && run != "" && (rest == "" || Safe([rest[0]])) ==>
      Sanitised(run + rest) == "-" + Sanitised(rest)
  {
    if Safe(run) {
      SafeRun(run, rest);
    }
    if Unsafe(run) && run != "" && (rest == "" || Safe([rest[0]])) {
      assert !Safe([run[0]]) && SafeChar(run[0]) == Safe([run[0]]);
      assert (run + rest)[1..] == run[1..] + rest;
      UnsafeRun(run[1..], rest);
    }
  }

  lemma {:induction false} SafeRun(run: string, rest: string)
    requires Safe(run)
    ensures |Sanitised(run + rest)| == |run| + |Sanitised(rest)| && Sanitised(run + rest)[|run|..] == Sanitised(rest)
    ensures forall i | 0 <= i < |run| ::
      Sanitised(run + rest)[i] == if 'A' <= run[i] <= 'Z' then ((run[i] as int) + 32) as char else run[i]
  {
    if run == "" {
      assert run + rest == rest;
    } else {
      assert (run + rest)[1..] == run[1..] + rest;
      SafeRun(run[1..], rest);
      assert Sanitised(run + rest) == [Lower(run[0])] + Sanitised(run[1..] + rest);
    }
  }

  lemma {:induction false} UnsafeRun(run: string, rest: string)
    requires Unsafe(run) && (rest == "" || Safe([rest[0]]))
    ensures Collapsed(run + rest, true) == Sanitised(rest)
  {
    if run == "" {
      assert run + rest == rest;
      if rest != "" {
        assert Safe([rest[0]]) && [rest[0]][0] == rest[0];
        assert SafeChar(rest[0]);
      }
    } else {
      assert !Safe([run[0]]) && SafeChar(run[0]) == Safe([run[0]]);
      assert (run + rest)[1..] == run[1..] + rest;
      UnsafeRun(run[1..], rest);
    }
  }

  // The time is kept but for its colons and dots, which become dashes, and of the path the part after the last
  // slash is kept.
  lemma BuiltExactly(tenantId: string, sourcePath: string, capturedAt: string)
    ensures var file := FileName(sourcePath);
      && BuildBlobName(tenantId, sourcePath, capturedAt) == Sanitised(tenantId) + "/" + Dashed(capturedAt) + "-" + file
      && '/' !in file && (sourcePath == file || exists directory :: sourcePath == directory + "/" + file)
    ensures |Dashed(capturedAt)| == |capturedAt|
    ensures forall i | 0 <= i < |capturedAt| ::
      Dashed(capturedAt)[i] == if capturedAt[i] == ':' || capturedAt[i] == '.' then '-' else capturedAt[i]
  {
    hide Sanitised, Dashed, FileName;
    DashedAt(capturedAt);
    AfterLastSlash(sourcePath);
  }

  lemma AfterLastSlash(path: string)
    ensures var file := FileName(path);
      '/' !in file && (path == file || exists directory :: path == directory + "/" + file)
  {
    hide Split, Join;
    var parts := Split('/', path);
    var last := |parts| - 1;
    JoinOfSplit('/', path);
    assert parts[last] in parts;
    if last > 0 {
      assert parts == parts[..last] + [parts[last]];
      JoinConcat('/', parts[..last], [parts[last]]);
      JoinOne('/', parts[last]);
      assert path == Join('/', parts[..last]) + "/" + parts[last];
    } else {
      assert parts == [parts[0]];
      JoinOne('/', parts[0]);
    }
  }

  lemma JoinOne(separator: char, part: string)
    ensures Join(separator, [part]) == part
  {
  }

  lemma {:induction false} DashedAt(timestamp: string)
    ensures |Dashed(timestamp)| == |timestamp|
    ensures forall i | 0 <= i < |timestamp| ::
      Dashed(timestamp)[i] == if timestamp[i] == ':' || timestamp[i] == '.' then '-' else timestamp[i]
  {
    if timestamp != "" {
      DashedAt(timestamp[1..]);
    }
  }

  lemma BuiltSegments(tenantId: string, sourcePath: string, capturedAt: string)
    requires '/' !in capturedAt
    ensures var name := BuildBlobName(tenantId, sourcePath, capturedAt);
      && Split('/', name) == [Sanitised(tenantId), Dashed(capturedAt) + "-" + FileName(sourcePath)]
      && Prefix(name) == Sanitised(tenantId)
  {
    CollapsedSafe(tenantId, false);
    DashedSlashes(capturedAt);
    JoinOfSplit('/', sourcePath);
    assert FileName(sourcePath) in Split('/', sourcePath);
    var file := Dashed(capturedAt) + "-" + FileName(sourcePath);
    SplitWhole('/', file);
    SplitAtFirst('/', Sanitised(tenantId), file);
  }

  // ------------------------------------------------------------------------------------------
  // Reading the name back from a location's path.

  function NonEmpty(parts: seq<string>): seq<string> {
    if parts == [] then [] else (if parts[0] == "" then [] else [parts[0]]) + NonEmpty(parts[1..])
  }

  function ExtractBlobName(path: string): string {
    var parts := NonEmpty(Split('/', path));
    Join('/', if parts == [] then [] else parts[1..])
  }

  // A character put in front of the first part, or a cut before it.
  function Ahead(c: char, separator: char, parts: seq<string>): seq<string>
    requires parts != []
  {
    if c == separator then [""] + parts else [[c] + parts[0]] + parts[1..]
  }

  lemma SplitTurn(separator: char, c: char, s: string)
    ensures Split(separator, [c] + s) == Ahead(c, separator, Split(separator, s))
  {
    assert ([c] + s)[1..] == s;
  }

  lemma AheadConcat(c: char, separator: char, a: seq<string>, b: seq<string>)
    requires a != []
    ensures Ahead(c, separator, a + b) == Ahead(c, separator, a) + b
  {
    assert (a + b)[0] == a[0] && (a + b)[1..] == a[1..] + b;
  }

  lemma {:induction false} SplitConcat(separator: char, a: string, b: string)
    ensures Split(separator, a + [separator] + b) == Split(separator, a) + Split(separator, b)
  {
    if a == "" {
      assert a + [separator] + b == [separator] + b;
      SplitTurn(separator, separator, b);
      assert Split(separator, "") == [""];
    } else {
      hide Split, Ahead;
      SplitConcat(separator, a[1..], b);
      assert a == [a[0]] + a[1..];
      assert a + [separator] + b == [a[0]] + (a[1..] + [separator] + b);
      SplitTurn(separator, a[0], a[1..]);
      SplitTurn(separator, a[0], a[1..] + [separator] + b);
      AheadConcat(a[0], separator, Split(separator, a[1..]), Split(separator, b));
    }
  }

  function Total(parts: seq<string>): nat {
    if parts == [] then 0 else |parts[0]| + Total(parts[1..])
  }

  lemma {:induction false} JoinLength(separator: char, parts: seq<string>)
    ensures |Join(separator, parts)| == Total(parts) + if parts == [] then 0 else |parts| - 1
  {
    if |parts| == 1 {
      assert parts[1..] == [];
    } else if parts != [] {
      JoinLength(separator, parts[1..]);
    }
  }

  lemma {:induction false} NonEmptyLength(parts: seq<string>)
    ensures Total(NonEmpty(parts)) == Total(parts)
    ensures if "" in parts then |NonEmpty(parts)| < |parts| else NonEmpty(parts) == parts
  {
    if parts != [] {
      NonEmptyLength(parts[1..]);
      var rest := NonEmpty(parts[1..]);
      if parts[0] == "" {
        assert [] + rest == rest;
      } else {
        assert ([parts[0]] + rest)[1..] == rest;
      }
    }
  }

  // A name comes back from its location exactly when none of its segments is empty.
  lemma ExtractExactly(container: string, name: string)
    requires container != "" && '/' !in container
    ensures ExtractBlobName("/" + container + "/" + name) == name <==> name == "" || "" !in Split('/', name)
  {
    var path, segments := "/" + container + "/" + name, Split('/', name);
    assert path == "" + ['/'] + (container + ['/'] + name);
    SplitAtFirst('/', "", container + ['/'] + name);
    SplitAtFirst('/', container, name);
    assert Split('/', path) == [""] + ([container] + segments);
    assert Split('/', path)[1..] == [container] + segments && ([container] + segments)[1..] == segments;
    assert NonEmpty(Split('/', path)) == [container] + NonEmpty(segments);
    assert ([container] + NonEmpty(segments))[1..] == NonEmpty(segments);
    NonEmptyLength(segments);
    JoinOfSplit('/', name);
    JoinLength('/', segments);
    JoinLength('/', NonEmpty(segments));
  }

  // Every name that is built comes back, unless its tenant id is empty.
  lemma ExtractBuilt(container: string, tenantId: string, sourcePath: string, capturedAt: string)
    requires container != "" && '/' !in container && '/' !in capturedAt
    ensures var name := BuildBlobName(tenantId, sourcePath, capturedAt);
      ExtractBlobName("/" + container + "/" + name) == name <==> tenantId != ""
  {
    BuiltSegments(tenantId, sourcePath, capturedAt);
    ExtractExactly(container, BuildBlobName(tenantId, sourcePath, capturedAt));
    assert tenantId != "" ==> Sanitised(tenantId) != "";
  }

  // ------------------------------------------------------------------------------------------
  // location LIKE '%/' || name, for a name without metacharacters.

  predicate Metacharacters(name: string) {
    '%' in name || '_' in name || '\\' in name
  }

  predicate EndsWithName(location: string, name: string) {
    var cut := |location| - |name| - 1;
    cut >= 0 && location[cut] == '/' && location[cut + 1..] == name
  }

  predicate TwoSegments(name: string) {
    |Split('/', name)| == 2
  }

  lemma {:induction false} CollapsedUnderscores(id: string, inRun: bool)
    ensures '_' in Collapsed(id, inRun) <==> '_' in id
  {
    if id != "" {
      CollapsedUnderscores(id[1..], !SafeChar(id[0]));
      assert id == [id[0]] + id[1..];
    }
  }

  // A built name is refused if and only if the tenant id has an underscore, or the capture time or the
  // file name brings a metacharacter along.
  lemma BuiltMetacharacters(tenantId: string, sourcePath: string, capturedAt: string)
    ensures Metacharacters(BuildBlobName(tenantId, sourcePath, capturedAt))
       <==> '_' in tenantId || Metacharacters(Dashed(capturedAt)) || Metacharacters(FileName(sourcePath))
  {
    CollapsedSafe(tenantId, false);
    CollapsedUnderscores(tenantId, false);
    hide Collapsed, Dashed, FileName;
  }

  lemma {:induction false} JoinConcat(separator: char, a: seq<string>, b: seq<string>)
    requires a != [] && b != []
    ensures Join(separator, a + b) == Join(separator, a) + [separator] + Join(separator, b)
  {
    if |a| == 1 {
      assert (a + b)[1..] == b;
    } else {
      assert (a + b)[1..] == a[1..] + b;
      JoinConcat(separator, a[1..], b);
    }
  }

  ghost predicate IsSuffix(suffix: seq<string>, s: seq<string>) {
    |suffix| <= |s| && s[|s| - |suffix|..] == suffix
  }

  // The pattern finds the location of a stored blob if and only if the segments of the name are the last
  // ones of the location, and not all of them. So a name that something else put in the container also
  // matches the rows of other blobs when it is shorter than theirs, or repeats the end of the base.
  lemma MatchExactly(base: string, stored: string, name: string)
    ensures var segments := Split('/', base) + Split('/', stored);
      EndsWithName(base + "/" + stored, name) <==>
      |Split('/', name)| < |segments| && IsSuffix(Split('/', name), segments)
  {
    hide Split, Join;
    var location, last := base + "/" + stored, Split('/', name);
    var segments := Split('/', base) + Split('/', stored);
    SplitConcat('/', base, stored);
    if EndsWithName(location, name) {
      var pre := location[..|location| - |name| - 1];
      assert location == pre + ['/'] + name;
      SplitConcat('/', pre, name);
    }
    if |last| < |segments| && IsSuffix(last, segments) {
      var before := segments[..|segments| - |last|];
      assert segments == before + last;
      JoinConcat('/', before, last);
      JoinOfSplit('/', name);
      JoinOfSplit('/', location);
      var front := Join('/', before);
      assert location == front + ['/'] + name && location[|front|] == '/' && location[|front| + 1..] == name;
    }
  }

  // Among names of two segments the pattern finds the location of that very blob and no other.
  lemma MatchIsSame(base: string, stored: string, name: string)
    requires TwoSegments(stored) && TwoSegments(name)
    ensures EndsWithName(base + "/" + stored, name) <==> stored == name
  {
    MatchExactly(base, stored, name);
    JoinOfSplit('/', name);
    JoinOfSplit('/', stored);
    hide Split, Join, EndsWithName;
    var segments := Split('/', base) + Split('/', stored);
    assert segments[|segments| - 2..] == Split('/', stored);
  }
}
