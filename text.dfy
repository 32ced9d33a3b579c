/** The Python string operations the back end applies to model output:
    `split`, `startswith`, `replace(p, "")` and `strip()`. */
module Text {

  /** Python's `str.isspace` for one character: exactly the characters `strip()` removes. */
  predicate IsSpace(c: char) {
    var n := c as int;
    (9 <= n <= 13) || (0x1C <= n <= 0x20) || n == 0x85 || n == 0xA0 || n == 0x1680
    || (0x2000 <= n <= 0x200A) || n == 0x2028 || n == 0x2029 || n == 0x202F
    || n == 0x205F || n == 0x3000
  }

  /** `s.split(sep)` for a one-character separator: the pieces between separators,
      empty pieces included, so there is always at least one. */
  function Split(s: string, sep: char): (parts: seq<string>)
    ensures |parts| >= 1
    ensures forall i :: 0 <= i < |parts| ==> sep !in parts[i]
    decreases |s|
  {
    if s == [] then [""]
    else
      var rest := Split(s[1..], sep);
      if s[0] == sep then [""] + rest
      else [[s[0]] + rest[0]] + rest[1..]
  }

  /** `sep.join(parts)`. */
  function Join(parts: seq<string>, sep: char): string
    requires |parts| >= 1
    decreases |parts|
  {
    if |parts| == 1 then parts[0] else parts[0] + [sep] + Join(parts[1..], sep)
  }

  /** Splitting loses nothing: joining the pieces gives the text back. */
  lemma {:induction false} JoinSplit(s: string, sep: char)
    ensures Join(Split(s, sep), sep) == s
    decreases |s|
  {
    if s != [] {
      var rest := Split(s[1..], sep);
      JoinSplit(s[1..], sep);
      if s[0] == sep {
        assert Split(s, sep)[1..] == rest;
      } else if |rest| == 1 {
        assert Split(s, sep) == [[s[0]] + rest[0]];
      } else {
        var parts := Split(s, sep);
        assert parts[1..] == rest[1..];
        assert Join(rest, sep) == rest[0] + [sep] + Join(rest[1..], sep);
        assert Join(parts, sep) == [s[0]] + rest[0] + [sep] + Join(rest[1..], sep);
      }
      assert s == [s[0]] + s[1..];
    }
  }

  lemma {:induction false} SplitWithoutSeparator(s: string, sep: char)
    requires sep !in s
    ensures Split(s, sep) == [s]
    decreases |s|
  {
    if s != [] {
      SplitWithoutSeparator(s[1..], sep);
      assert [s[0]] + s[1..] == s;
    }
  }

  lemma {:induction false} SplitAfterPiece(a: string, sep: char, b: string)
    requires sep !in a
    ensures Split(a + [sep] + b, sep) == [a] + Split(b, sep)
    decreases |a|
  {
    var s := a + [sep] + b;
    if a == [] {
      assert s[0] == sep && s[1..] == b;
    } else {
      SplitAfterPiece(a[1..], sep, b);
      assert s[1..] == a[1..] + [sep] + b;
      assert [a[0]] + a[1..] == a;
    }
  }

  /** Joining pieces that contain no separator and splitting again gives the pieces back. */
  lemma {:induction false} SplitJoin(parts: seq<string>, sep: char)
    requires |parts| >= 1
    requires forall i :: 0 <= i < |parts| ==> sep !in parts[i]
    ensures Split(Join(parts, sep), sep) == parts
    decreases |parts|
  {
    if |parts| == 1 {
      SplitWithoutSeparator(parts[0], sep);
    } else {
      SplitJoin(parts[1..], sep);
      SplitAfterPiece(parts[0], sep, Join(parts[1..], sep));
      assert [parts[0]] + parts[1..] == parts;
    }
  }

  /** `s.startswith(prefix)`. */
  predicate StartsWith(s: string, prefix: string): (b: bool)
    ensures b <==> |prefix| <= |s| && s[..|prefix|] == prefix
  {
    prefix <= s
  }

  predicate OccursAt(s: string, p: string, i: int) {
    0 <= i && i + |p| <= |s| && s[i..i + |p|] == p
  }

  /** `p in s` for a non-empty pattern. */
  ghost predicate Occurs(s: string, p: string) {
    exists i :: OccursAt(s, p, i)
  }

  /** A text shorter than p cannot contain it. */
  lemma ShortAbsent(s: string, p: string)
    requires |s| < |p|
    ensures !Occurs(s, p)
  {
  }

  /** A pattern found in a slice is found in the whole text. */
  lemma OccursInSlice(s: string, p: string, a: int, b: int)
    requires 0 <= a <= b <= |s|
    ensures Occurs(s[a..b], p) ==> Occurs(s, p)
  {
    if Occurs(s[a..b], p) {
      var t := s[a..b];
      var i :| OccursAt(t, p, i);
      assert forall k :: 0 <= k < |p| ==> s[a + i + k] == t[i + k] == p[k];
      assert s[a + i..a + i + |p|] == p;
      assert OccursAt(s, p, a + i);
    }
  }

  /** A text that contains p + q contains p. */
  lemma OccursPrefix(s: string, p: string, q: string)
    ensures Occurs(s, p + q) ==> Occurs(s, p)
  {
    if Occurs(s, p + q) {
      var i :| OccursAt(s, p + q, i);
      assert s[i..i + |p|] == (p + q)[..|p|];
      assert OccursAt(s, p, i);
    }
  }

  /** `s.replace(p, "")`: scanning left to right, removes every non-overlapping
      occurrence of p. Characters next to a removed occurrence may form a new one,
      which stays. */
  function RemoveAll(s: string, p: string): (r: string)
    requires p != []
    ensures |r| <= |s|
    decreases |s|
  {
    if |s| < |p| then s
    else if s[..|p|] == p then RemoveAll(s[|p|..], p)
    else [s[0]] + RemoveAll(s[1..], p)
  }

  /** Removing a pattern that does not occur leaves the text as it is. */
  lemma {:induction false} RemoveAllAbsent(s: string, p: string)
    requires p != [] && !Occurs(s, p)
    ensures RemoveAll(s, p) == s
    decreases |s|
  {
    if |s| >= |p| {
      assert !OccursAt(s, p, 0);
      OccursInSlice(s, p, 1, |s|);
      assert s[1..|s|] == s[1..];
      RemoveAllAbsent(s[1..], p);
      assert [s[0]] + s[1..] == s;
    }
  }

  /** The first k characters, none of which can start p, are kept as they are. */
  lemma {:induction false} RemoveAllSkip(s: string, p: string, k: int)
    requires p != [] && 0 <= k <= |s|
    requires forall j :: 0 <= j < k ==> s[j] != p[0]
    ensures RemoveAll(s, p) == s[..k] + RemoveAll(s[k..], p)
    decreases k
  {
    if k > 0 {
      if |s| < |p| {
        assert RemoveAll(s[k..], p) == s[k..];
      } else {
        assert s[..|p|] != p by { assert s[..|p|][0] == s[0]; }
        RemoveAllSkip(s[1..], p, k - 1);
        assert s[1..][k - 1..] == s[k..];
        assert [s[0]] + s[1..][..k - 1] == s[..k];
      }
    }
  }

  /** A leading p is removed, and the rest, free of p, is kept. */
  lemma RemoveLeadingTag(p: string, rest: string)
    requires p != [] && !Occurs(rest, p)
    ensures RemoveAll(p + rest, p) == rest
  {
    var s := p + rest;
    assert s[..|p|] == p && s[|p|..] == rest;
    RemoveAllAbsent(rest, p);
  }

  /** A second p after a p-free text a is removed as well, provided the last
      character of p occurs nowhere else in p: no occurrence can then start inside
      a and run into the second p. */
  lemma {:induction false} RemoveAllAcross(a: string, p: string, b: string)
    requires p != [] && p[|p| - 1] !in p[..|p| - 1]
    requires !Occurs(a, p) && !Occurs(b, p)
    ensures RemoveAll(a + p + b, p) == a + b
    decreases |a|
  {
    if a == [] {
      assert a + p + b == p + b;
      RemoveLeadingTag(p, b);
    } else {
      var s := a + p + b;
      var t := a[1..] + p + b;
      NoTagAtHead(a, p, b);
      OccursInSlice(a, p, 1, |a|);
      assert a[1..|a|] == a[1..];
      RemoveAllAcross(a[1..], p, b);
      assert s[1..] == t;
      RemoveAllNoHead(s, t, p, a[1..] + b);
      ConsTail(a, b);
    }
  }

  /** p does not start at the head of a + p + b when a is non-empty and p-free. */
  lemma NoTagAtHead(a: string, p: string, b: string)
    requires p != [] && p[|p| - 1] !in p[..|p| - 1]
    requires a != [] && !Occurs(a, p)
    ensures |a + p + b| >= |p| && (a + p + b)[..|p|] != p
  {
    var s := a + p + b;
    if |a| >= |p| {
      assert s[..|p|] == a[..|p|];
      assert !OccursAt(a, p, 0);
    } else {
      var j := |p| - 1 - |a|;
      assert s[|p| - 1] == p[j];
      assert p[j] == p[..|p| - 1][j];
    }
  }

  /** Where p does not start at the head, the first character is kept. */
  lemma RemoveAllNoHead(s: string, t: string, p: string, r: string)
    requires p != [] && |s| >= |p| && s[..|p|] != p
    requires s[1..] == t && RemoveAll(t, p) == r
    ensures RemoveAll(s, p) == [s[0]] + r
  {
  }

  lemma ConsTail(a: string, b: string)
    requires a != []
    ensures [(a + b)[0]] + (a[1..] + b) == a + b
  {
  }

  /** A prefix in which p cannot start passes through unchanged. */
  lemma RemoveAllAfter(a: string, b: string, p: string)
    requires p != [] && p[0] !in a
    ensures RemoveAll(a + b, p) == a + RemoveAll(b, p)
  {
    var s := a + b;
    RemoveAllSkip(s, p, |a|);
    assert s[..|a|] == a && s[|a|..] == b;
  }

  /** `s.lstrip()`: whitespace removed from the start; what is left does not start with whitespace. */
  function StripStart(s: string): (r: string)
    ensures |r| <= |s| && (r == [] || !IsSpace(r[0]))
    decreases |s|
  {
    if s != [] && IsSpace(s[0]) then StripStart(s[1..]) else s
  }

  /** `s.rstrip()`: whitespace removed from the end; what is left does not end with whitespace. */
  function StripEnd(s: string): (r: string)
    ensures |r| <= |s| && (r == [] || !IsSpace(r[|r| - 1]))
    decreases |s|
  {
    if s != [] && IsSpace(s[|s| - 1]) then StripEnd(s[..|s| - 1]) else s
  }

  /** What `lstrip()` leaves is a suffix of s. */
  lemma {:induction false} StripStartSuffix(s: string)
    ensures var r := StripStart(s); r == s[|s| - |r|..]
    decreases |s|
  {
    if s != [] && IsSpace(s[0]) {
      StripStartSuffix(s[1..]);
      var r := StripStart(s[1..]);
      assert s[1..][|s| - 1 - |r|..] == s[|s| - |r|..];
    }
  }

  /** What `rstrip()` leaves is a prefix of s. */
  lemma {:induction false} StripEndPrefix(s: string)
    ensures var r := StripEnd(s); r == s[..|r|]
    decreases |s|
  {
    if s != [] && IsSpace(s[|s| - 1]) {
      var init := s[..|s| - 1];
      StripEndPrefix(init);
      var r := StripEnd(init);
      assert init[..|r|] == s[..|r|];
    }
  }

  /** Everything `lstrip()` cuts off is whitespace. */
  lemma {:induction false} StripStartCutsSpace(s: string)
    ensures forall k :: 0 <= k < |s| - |StripStart(s)| ==> IsSpace(s[k])
    decreases |s|
  {
    if s != [] && IsSpace(s[0]) {
      StripStartCutsSpace(s[1..]);
      forall k | 1 <= k < |s| - |StripStart(s)|
        ensures IsSpace(s[k])
      {
        assert s[k] == s[1..][k - 1];
      }
    }
  }

  /** Everything `rstrip()` cuts off is whitespace. */
  lemma {:induction false} StripEndCutsSpace(s: string)
    ensures forall k :: |StripEnd(s)| <= k < |s| ==> IsSpace(s[k])
    decreases |s|
  {
    if s != [] && IsSpace(s[|s| - 1]) {
      var init := s[..|s| - 1];
      StripEndCutsSpace(init);
      forall k | |StripEnd(s)| <= k < |s| - 1
        ensures IsSpace(s[k])
      {
        assert s[k] == init[k];
      }
    }
  }

  /** `s.strip()`: the slice of s between its leading and its trailing whitespace,
      neither end of which is whitespace. */
  function Strip(s: string): (r: string)
    ensures r == [] || (!IsSpace(r[0]) && !IsSpace(r[|r| - 1]))
    ensures var lead := |s| - |StripStart(s)|; lead + |r| <= |s| && r == s[lead..lead + |r|]
  {
    var t := StripStart(s);
    var r := StripEnd(t);
    StripStartSuffix(s);
    StripEndPrefix(t);
    StripsNested(s, t, r);
    r
  }

  /** A prefix r of the suffix t of s is the slice of s where t starts; when t
      does not start with whitespace and r does not end with it, r is bounded by
      non-whitespace on both sides. */
  lemma StripsNested(s: string, t: string, r: string)
    requires |t| <= |s| && t == s[|s| - |t|..] && (t == [] || !IsSpace(t[0]))
    requires |r| <= |t| && r == t[..|r|] && (r == [] || !IsSpace(r[|r| - 1]))
    ensures (r == [] || (!IsSpace(r[0]) && !IsSpace(r[|r| - 1])))
    ensures |s| - |t| + |r| <= |s| && r == s[|s| - |t|..|s| - |t| + |r|]
  {
    var lead := |s| - |t|;
    assert s[lead..][..|r|] == s[lead..lead + |r|];
    if r != [] {
      assert r[0] == t[0];
    }
  }

  /** Everything `strip()` cuts off, on either side, is whitespace. */
  lemma StripCutsSpace(s: string)
    ensures var lead, r := |s| - |StripStart(s)|, Strip(s);
      && (forall k :: 0 <= k < lead ==> IsSpace(s[k]))
      && (forall k :: lead + |r| <= k < |s| ==> IsSpace(s[k]))
  {
    StripStartCutsSpace(s);
    StripEndCutsAfterLead(s);
  }

  lemma StripEndCutsAfterLead(s: string)
    ensures var lead, r := |s| - |StripStart(s)|, Strip(s);
      forall k :: lead + |r| <= k < |s| ==> IsSpace(s[k])
  {
    var t := StripStart(s);
    var r := StripEnd(t);
    var lead := |s| - |t|;
    assert r == Strip(s);
    StripStartSuffix(s);
    StripEndCutsSpace(t);
    forall k | lead + |r| <= k < |s|
      ensures IsSpace(s[k])
    {
      assert |r| <= k - lead < |t|;
      assert s[k] == t[k - lead];
    }
  }

  /** Stripping cannot create an occurrence of a pattern. */
  lemma StripKeepsAbsence(s: string, p: string)
    requires !Occurs(s, p)
    ensures !Occurs(Strip(s), p)
  {
    var lead := |s| - |StripStart(s)|;
    OccursInSlice(s, p, lead, lead + |Strip(s)|);
  }
}
