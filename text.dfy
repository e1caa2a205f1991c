/**
 * The string operations the extractor uses: substring search (`sub in s`),
 * splitting on a separator (`s.split(sep)`) and its inverse (`sep.join(parts)`).
 */
module Text {
  import opened Wrappers

  /** `sub` occurs in `s` starting at position `i`. */
  predicate OccursAt(s: string, sub: string, i: int)
  {
    0 <= i && i + |sub| <= |s| && s[i..i + |sub|] == sub
  }

  /** The first position at or after `from` where `sub` occurs in `s`, if any. */
  function FindFrom(s: string, sub: string, from: nat): (r: Option<nat>)
    ensures r.Some? ==> from <= r.value && r.value + |sub| <= |s|
    decreases |s| - from
  {
    if from + |sub| > |s| then None
    else if s[from..from + |sub|] == sub then Some(from)
    else FindFrom(s, sub, from + 1)
  }

  /** What the search finds is an occurrence. */
  lemma {:induction false} FindFromFound(s: string, sub: string, from: nat)
    requires FindFrom(s, sub, from).Some?
    ensures OccursAt(s, sub, FindFrom(s, sub, from).value)
    decreases |s| - from
  {
    if s[from..from + |sub|] != sub {
      FindFromFound(s, sub, from + 1);
    }
  }

  /** The search skips no occurrence: none lies before what it finds, and none at all when it fails. */
  lemma {:induction false} FindFromFirst(s: string, sub: string, from: nat)
    ensures var r := FindFrom(s, sub, from);
      && (r.Some? ==> forall i :: from <= i < r.value ==> !OccursAt(s, sub, i))
      && (r.None? ==> forall i :: from <= i ==> !OccursAt(s, sub, i))
    decreases |s| - from
  {
    if from + |sub| <= |s| && s[from..from + |sub|] != sub {
      FindFromFirst(s, sub, from + 1);
    }
  }

  /** Python's `sub in s` on strings. */
  function Contains(s: string, sub: string): bool
  {
    FindFrom(s, sub, 0).Some?
  }

  /** `sub in s` holds exactly when `sub` occurs at some position of `s`. */
  lemma ContainsMeaning(s: string, sub: string)
    ensures Contains(s, sub) <==> exists i :: OccursAt(s, sub, i)
  {
    if Contains(s, sub) {
      FindFromFound(s, sub, 0);
    } else {
      FindFromFirst(s, sub, 0);
    }
  }

  /** Python's `s.split(sep)` for a non-empty separator. */
  function Split(s: string, sep: string): (parts: seq<string>)
    requires |sep| > 0
    ensures |parts| >= 1
    decreases |s|
  {
    match FindFrom(s, sep, 0)
    case None => [s]
    case Some(i) => [s[..i]] + Split(s[i + |sep|..], sep)
  }

  /** Python's `sep.join(parts)`, the inverse of `Split`. */
  function Join(parts: seq<string>, sep: string): string
    requires |parts| >= 1
  {
    if |parts| == 1 then parts[0] else parts[0] + sep + Join(parts[1..], sep)
  }

  /** Python's `xs[-1]`. */
  function Last<T>(xs: seq<T>): T
    requires |xs| > 0
  {
    xs[|xs| - 1]
  }

  /** A one-character pattern occurs exactly where that character stands. */
  lemma OccursAtChar(s: string, c: char, i: int)
    ensures OccursAt(s, [c], i) <==> 0 <= i < |s| && s[i] == c
  {
    if 0 <= i < |s| {
      assert s[i..i + 1] == [s[i]];
    }
  }

  /** Searching for a one-character string is searching for the character. */
  lemma ContainsChar(s: string, c: char)
    ensures Contains(s, [c]) <==> c in s
  {
    ContainsMeaning(s, [c]);
    if c in s {
      var i :| 0 <= i < |s| && s[i] == c;
      OccursAtChar(s, c, i);
    }
    if Contains(s, [c]) {
      var i :| OccursAt(s, [c], i);
      OccursAtChar(s, c, i);
    }
  }

  /** The text before the first occurrence of `sep` holds no occurrence of `sep`. */
  lemma PrefixBeforeFirst(s: string, sep: string, i: nat)
    requires |sep| > 0
    requires FindFrom(s, sep, 0) == Some(i)
    ensures !Contains(s[..i], sep)
  {
    FindFromFirst(s, sep, 0);
    ContainsMeaning(s[..i], sep);
    if Contains(s[..i], sep) {
      var j :| OccursAt(s[..i], sep, j);
      assert s[..i][j..j + |sep|] == s[j..j + |sep|];
      assert OccursAt(s, sep, j);
    }
  }

  lemma JoinCons(head: string, tail: seq<string>, sep: string)
    requires |tail| >= 1
    ensures Join([head] + tail, sep) == head + sep + Join(tail, sep)
  {
    assert ([head] + tail)[1..] == tail;
  }

  /** Joining the fields of a split with the same separator gives back the string. */
  lemma {:induction false} JoinSplit(s: string, sep: string)
    requires |sep| > 0
    ensures Join(Split(s, sep), sep) == s
    decreases |s|
  {
    match FindFrom(s, sep, 0)
    case None =>
    case Some(i) =>
      var head, rest := s[..i], s[i + |sep|..];
      assert Split(s, sep) == [head] + Split(rest, sep);
      JoinSplit(rest, sep);
      JoinCons(head, Split(rest, sep), sep);
      assert s == head + sep + rest by {
        FindFromFound(s, sep, 0);
        assert s == head + s[i..i + |sep|] + rest;
      }
  }

  /** No field of a split contains the separator. */
  lemma {:induction false} SplitFieldsAvoidSeparator(s: string, sep: string)
    requires |sep| > 0
    ensures forall k :: 0 <= k < |Split(s, sep)| ==> !Contains(Split(s, sep)[k], sep)
    decreases |s|
  {
    match FindFrom(s, sep, 0)
    case None =>
    case Some(i) =>
      var rest := s[i + |sep|..];
      SplitFieldsAvoidSeparator(rest, sep);
      PrefixBeforeFirst(s, sep, i);
      var parts := Split(s, sep);
      assert parts == [s[..i]] + Split(rest, sep);
      forall k | 0 <= k < |parts| ensures !Contains(parts[k], sep) {
        if k > 0 {
          assert parts[k] == Split(rest, sep)[k - 1];
        }
      }
  }

  /** The first field is the text up to (not including) the first separator, or all of `s`. */
  lemma SplitHead(s: string, sep: string)
    requires |sep| > 0
    ensures var head := Split(s, sep)[0];
      && head <= s
      && !Contains(head, sep)
      && (head == s || OccursAt(s, sep, |head|))
      && forall j :: 0 <= j < |head| ==> !OccursAt(s, sep, j)
  {
    FindFromFirst(s, sep, 0);
    match FindFrom(s, sep, 0)
    case None =>
    case Some(i) =>
      FindFromFound(s, sep, 0);
      PrefixBeforeFirst(s, sep, i);
  }

  /** Splitting on one character yields one more field than that character has occurrences. */
  lemma {:induction false} SplitCharCount(s: string, c: char)
    ensures |Split(s, [c])| == multiset(s)[c] + 1
    decreases |s|
  {
    match FindFrom(s, [c], 0)
    case None =>
      FindFromFirst(s, [c], 0);
      if c in s {
        var i :| 0 <= i < |s| && s[i] == c;
        OccursAtChar(s, c, i);
      }
    case Some(i) =>
      FindFromFound(s, [c], 0);
      var rest := s[i + 1..];
      SplitCharCount(rest, c);
      OccursAtChar(s, c, i);
      PrefixBeforeFirst(s, [c], i);
      ContainsChar(s[..i], c);
      assert s == s[..i] + [c] + rest;
      assert multiset(s) == multiset(s[..i]) + multiset([c]) + multiset(rest);
  }

  /**
   * The last field of a split on `c` is the suffix of `s` after its last `c`:
   * it holds no `c`, and it is either all of `s` or preceded by a `c`.
   */
  lemma {:induction false} SplitLastChar(s: string, c: char)
    ensures var tail := Last(Split(s, [c]));
      && |tail| <= |s|
      && s[|s| - |tail|..] == tail
      && c !in tail
      && (|tail| == |s| || s[|s| - |tail| - 1] == c)
    decreases |s|
  {
    match FindFrom(s, [c], 0)
    case None =>
      ContainsChar(s, c);
    case Some(i) =>
      FindFromFound(s, [c], 0);
      var rest := s[i + 1..];
      SplitLastChar(rest, c);
      OccursAtChar(s, c, i);
      assert Split(s, [c]) == [s[..i]] + Split(rest, [c]);
      assert Last(Split(s, [c])) == Last(Split(rest, [c]));
      var tail := Last(Split(rest, [c]));
      assert s[|s| - |tail|..] == rest[|rest| - |tail|..];
  }
}
