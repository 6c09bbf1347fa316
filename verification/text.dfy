// String operations of the JavaScript runtime that the text layers rely on.
module Text {
  // White space and line terminators, as String.prototype.trim and \s see them.
  predicate IsSpace(c: char) {
    var n := c as int;
    || 0x9 <= n <= 0xD || n == 0x20 || n == 0xA0 || n == 0x1680 || 0x2000 <= n <= 0x200A
    || n == 0x2028 || n == 0x2029 || n == 0x202F || n == 0x205F || n == 0x3000 || n == 0xFEFF
  }

  // The white space and line terminators of sections 12.2 and 12.3 of ECMA-262, one by one.
  lemma SpaceExactly(c: char)
    ensures IsSpace(c) <==>
      c as int in {0x9, 0xA, 0xB, 0xC, 0xD, 0x20, 0xA0, 0x1680, 0x2000, 0x2001, 0x2002, 0x2003, 0x2004, 0x2005, 0x2006,
                   0x2007, 0x2008, 0x2009, 0x200A, 0x2028, 0x2029, 0x202F, 0x205F, 0x3000, 0xFEFF}
  {
  }

  ghost predicate AllSpace(s: string) {
    forall i | 0 <= i < |s| :: IsSpace(s[i])
  }

  ghost predicate Trimmed(s: string) {
    s == "" || (!IsSpace(s[0]) && !IsSpace(s[|s| - 1]))
  }

  function TrimStart(s: string): string {
    if s == "" || !IsSpace(s[0]) then s else TrimStart(s[1..])
  }

  function TrimEnd(s: string): string {
    if s == "" || !IsSpace(s[|s| - 1]) then s else TrimEnd(s[..|s| - 1])
  }

  function Trim(s: string): string {
    TrimEnd(TrimStart(s))
  }

  lemma {:induction false} TrimStartSplits(s: string) returns (pre: string)
    ensures s == pre + TrimStart(s) && AllSpace(pre)
    ensures TrimStart(s) == "" || !IsSpace(TrimStart(s)[0])
  {
    if s == "" || !IsSpace(s[0]) {
      pre := "";
    } else {
      var rest := TrimStartSplits(s[1..]);
      pre := [s[0]] + rest;
    }
  }

  lemma {:induction false} TrimEndSplits(s: string) returns (post: string)
    ensures s == TrimEnd(s) + post && AllSpace(post)
    ensures TrimEnd(s) == "" || !IsSpace(TrimEnd(s)[|TrimEnd(s)| - 1])
  {
    if s == "" || !IsSpace(s[|s| - 1]) {
      post := "";
    } else {
      var rest := TrimEndSplits(s[..|s| - 1]);
      post := rest + [s[|s| - 1]];
      assert s == s[..|s| - 1] + [s[|s| - 1]];
    }
  }

  // Trimming removes a run of white space at each end and nothing else.
  lemma TrimSplits(s: string) returns (pre: string, post: string)
    ensures s == pre + Trim(s) + post && AllSpace(pre) && AllSpace(post)
    ensures Trimmed(Trim(s))
  {
    pre := TrimStartSplits(s);
    post := TrimEndSplits(TrimStart(s));
    assert s == pre + (Trim(s) + post);
    if Trim(s) != "" {
      assert TrimStart(s)[0] == Trim(s)[0];
    }
  }

  lemma TrimKeeps(s: string)
    requires Trimmed(s)
    ensures Trim(s) == s
  {
  }

  // ... and that determines the result.
  lemma TrimExactly(s: string, t: string)
    ensures t == Trim(s) <==> Trimmed(t) && exists pre, post :: s == pre + t + post && AllSpace(pre) && AllSpace(post)
  {
    var before, after := TrimSplits(s);
    if Trimmed(t) && exists pre, post :: s == pre + t + post && AllSpace(pre) && AllSpace(post) {
      var pre, post :| s == pre + t + post && AllSpace(pre) && AllSpace(post);
      TrimOf(pre, t, post);
    }
  }

  lemma {:induction false} TrimOf(pre: string, t: string, post: string)
    requires Trimmed(t) && AllSpace(pre) && AllSpace(post)
    ensures Trim(pre + t + post) == t
  {
    if pre != "" {
      assert (pre + t + post)[1..] == pre[1..] + t + post;
      TrimOf(pre[1..], t, post);
    } else if t == "" {
      AllTrimmed(post);
      assert pre + t + post == post;
    } else {
      assert pre + t + post == t + post;
      EndTrimmed(t, post);
    }
  }

  lemma {:induction false} AllTrimmed(s: string)
    requires AllSpace(s)
    ensures TrimStart(s) == ""
  {
    if s != "" {
      AllTrimmed(s[1..]);
    }
  }

  lemma {:induction false} EndTrimmed(t: string, post: string)
    requires t != "" && !IsSpace(t[|t| - 1]) && AllSpace(post)
    ensures TrimEnd(t + post) == t
  {
    if post == "" {
      assert t + post == t;
    } else {
      assert (t + post)[..|t + post| - 1] == t + post[..|post| - 1];
      EndTrimmed(t, post[..|post| - 1]);
    }
  }

  lemma TrimIdempotent(s: string)
    ensures Trim(Trim(s)) == Trim(s)
  {
    var _, _ := TrimSplits(s);
    TrimKeeps(Trim(s));
  }

  // pattern occurs in s at index i.
  predicate At(s: string, i: int, pattern: string) {
    0 <= i && i + |pattern| <= |s| && s[i..i + |pattern|] == pattern
  }

  // String.prototype.split on one character
  function Split(separator: char, s: string): (parts: seq<string>)
    ensures parts != []
  {
    if s == "" then [""]
    else if s[0] == separator then [""] + Split(separator, s[1..])
    else [[s[0]] + Split(separator, s[1..])[0]] + Split(separator, s[1..])[1..]
  }

  lemma {:induction false} SplitWhole(separator: char, s: string)
    requires separator !in s
    ensures Split(separator, s) == [s]
  {
    if s != "" {
      SplitWhole(separator, s[1..]);
      assert [s[0]] + s[1..] == s;
    }
  }

  lemma {:induction false} SplitAtFirst(separator: char, first: string, rest: string)
    requires separator !in first
    ensures Split(separator, first + [separator] + rest) == [first] + Split(separator, rest)
  {
    var s := first + [separator] + rest;
    if first == "" {
      assert s[1..] == rest;
    } else {
      assert s[1..] == first[1..] + [separator] + rest;
      SplitAtFirst(separator, first[1..], rest);
      assert [s[0]] + first[1..] == first;
    }
  }

  // Array.prototype.join on one character
  function Join(separator: char, parts: seq<string>): string {
    if parts == [] then "" else if |parts| == 1 then parts[0] else parts[0] + [separator] + Join(separator, parts[1..])
  }

  lemma {:induction false} JoinOfSplit(separator: char, s: string)
    ensures Join(separator, Split(separator, s)) == s
    ensures forall part | part in Split(separator, s) :: separator !in part
  {
    if s != "" {
      JoinOfSplit(separator, s[1..]);
      var tail := Split(separator, s[1..]);
      if s[0] == separator {
        assert ([""] + tail)[1..] == tail;
      } else {
        var parts := [[s[0]] + tail[0]] + tail[1..];
        assert parts[1..] == tail[1..];
        assert tail == [tail[0]] + tail[1..];
      }
    }
  }

  lemma {:induction false} SplitOfJoin(separator: char, parts: seq<string>)
    requires parts != [] && forall part | part in parts :: separator !in part
    ensures Split(separator, Join(separator, parts)) == parts
  {
    if |parts| == 1 {
      SplitWhole(separator, parts[0]);
    } else {
      SplitOfJoin(separator, parts[1..]);
      SplitAtFirst(separator, parts[0], Join(separator, parts[1..]));
      assert parts == [parts[0]] + parts[1..];
    }
  }
}
