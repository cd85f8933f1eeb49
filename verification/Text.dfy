// The string operations of the service that come from Go's strings package.
module Text {
  /** Upper-case ASCII and the three German umlauts; every other character is its own lower case. */
  function LowerChar(c: char): char {
    if 'A' <= c <= 'Z' then (c as int + 32) as char
    else if c == '\U{C4}' then '\U{E4}'
    else if c == '\U{D6}' then '\U{F6}'
    else if c == '\U{DC}' then '\U{FC}'
    else c
  }

  function Lower(s: string): (r: string)
    ensures |r| == |s|
    ensures forall i :: 0 <= i < |s| ==> r[i] == LowerChar(s[i])
  {
    seq(|s|, i requires 0 <= i < |s| => LowerChar(s[i]))
  }

  predicate IsSpace(c: char) {
    c == ' ' || '\U{9}' <= c <= '\U{D}' || c == '\U{85}' || c == '\U{A0}'
  }

  function TrimLeft(s: string): string {
    if s != "" && IsSpace(s[0]) then TrimLeft(s[1..]) else s
  }

  function TrimRight(s: string): string {
    if s != "" && IsSpace(s[|s| - 1]) then TrimRight(s[..|s| - 1]) else s
  }

  function TrimSpace(s: string): string {
    TrimRight(TrimLeft(s))
  }

  function TrimPrefix(s: string, prefix: string): string {
    if prefix <= s then s[|prefix|..] else s
  }

  /** The first position of c in s, or |s| where there is none. */
  function Find(s: string, c: char): (i: nat)
    ensures i <= |s|
    ensures i < |s| ==> s[i] == c
    ensures forall j :: 0 <= j < i ==> s[j] != c
    ensures i == |s| <==> c !in s
  {
    if s == "" then 0
    else if s[0] == c then 0
    else
      var i := Find(s[1..], c);
      assert forall j :: 0 < j < |s| ==> s[j] == s[1..][j - 1];
      i + 1
  }

  predicate Contains(s: string, part: string) {
    exists i :: 0 <= i <= |s| && part <= s[i..]
  }

  /** The pieces between occurrences of sep; always at least one. */
  function Split(s: string, sep: char): (parts: seq<string>)
    ensures |parts| >= 1
    decreases |s|
  {
    var i := Find(s, sep);
    if i == |s| then [s] else [s[..i]] + Split(s[i + 1..], sep)
  }

  /** Every character of s is the separator or lies in one of the pieces. */
  lemma {:induction false} SplitCovers(s: string, sep: char, c: char)
    requires c in s && c != sep
    ensures exists part :: part in Split(s, sep) && c in part
    decreases |s|
  {
    var i := Find(s, sep);
    if i == |s| {
      assert s in Split(s, sep);
    } else if c in s[..i] {
      assert s[..i] in Split(s, sep);
    } else {
      assert s == s[..i] + [s[i]] + s[i + 1..];
      assert c in s[i + 1..];
      SplitCovers(s[i + 1..], sep, c);
      var part :| part in Split(s[i + 1..], sep) && c in part;
      assert part in Split(s, sep);
    }
  }

  /** Byte order of strings, as strings.Compare has it on UTF-8. */
  predicate Leq(a: string, b: string) {
    a == "" || (b != "" && (a[0] < b[0] || (a[0] == b[0] && Leq(a[1..], b[1..]))))
  }

  lemma {:induction false} LeqTotal(a: string, b: string)
    ensures Leq(a, b) || Leq(b, a)
  {
    if a != "" && b != "" && a[0] == b[0] {
      LeqTotal(a[1..], b[1..]);
    }
  }

  lemma {:induction false} LeqAntisymmetric(a: string, b: string)
    requires Leq(a, b) && Leq(b, a)
    ensures a == b
  {
    if a != "" && b != "" {
      LeqAntisymmetric(a[1..], b[1..]);
      assert a == [a[0]] + a[1..] && b == [b[0]] + b[1..];
    }
  }

  lemma {:induction false} LeqTransitive(a: string, b: string, c: string)
    requires Leq(a, b) && Leq(b, c)
    ensures Leq(a, c)
  {
    if a != "" && a[0] == b[0] && b[0] == c[0] {
      LeqTransitive(a[1..], b[1..], c[1..]);
    }
  }

  /** The texts agree up to i, and there the one has the smaller character. */
  predicate FirstSmaller(a: string, b: string, i: nat) {
    i < |a| && i < |b| && a[..i] == b[..i] && a[i] < b[i]
  }

  lemma FirstSmallerTail(a: string, b: string, i: nat)
    requires a != "" && b != "" && a[0] == b[0]
    ensures FirstSmaller(a, b, i + 1) <==> FirstSmaller(a[1..], b[1..], i)
    ensures !FirstSmaller(a, b, 0)
  {
    if i < |a| - 1 && i < |b| - 1 {
      assert a[..i + 1] == [a[0]] + a[1..][..i] && b[..i + 1] == [b[0]] + b[1..][..i];
      assert a[1..][..i] == a[..i + 1][1..] && b[1..][..i] == b[..i + 1][1..];
    }
  }

  /** One text comes before another that it begins, or where it has the smaller character at the first difference. */
  lemma {:induction false} LeqByFirstDifference(a: string, b: string)
    ensures Leq(a, b) <==> a <= b || exists i :: FirstSmaller(a, b, i)
  {
    if a != "" && b != "" && a[0] == b[0] {
      LeqByFirstDifference(a[1..], b[1..]);
      FirstSmallerTail(a, b, 0);
      if i: nat :| FirstSmaller(a[1..], b[1..], i) {
        FirstSmallerTail(a, b, i);
        assert FirstSmaller(a, b, i + 1);
      }
      if i: nat :| FirstSmaller(a, b, i) {
        FirstSmallerTail(a, b, i - 1);
        assert FirstSmaller(a[1..], b[1..], i - 1);
      }
      assert a == [a[0]] + a[1..] && b == [b[0]] + b[1..];
    } else if a != "" && b != "" && a[0] < b[0] {
      assert FirstSmaller(a, b, 0);
    }
  }

  /** An id already in the one stored spelling: nothing for NormalizeID to change. */
  predicate IsLower(s: string) {
    forall c :: c in s ==> LowerChar(c) == c && !IsSpace(c)
  }

  lemma TrimKeeps(s: string)
    requires s == "" || (!IsSpace(s[0]) && !IsSpace(s[|s| - 1]))
    ensures TrimSpace(s) == s
  {
  }

  lemma LowerKeeps(s: string)
    requires IsLower(s)
    ensures Lower(s) == s
  {
    forall i | 0 <= i < |s|
      ensures Lower(s)[i] == s[i]
    {
      assert s[i] in s;
    }
  }

  // ── Spellings of one id ─────────────────────────────────────────────────────

  predicate AllSpaces(s: string) {
    forall c :: c in s ==> IsSpace(c)
  }

  lemma {:induction false} TrimLeftBlanks(a: string, s: string)
    requires AllSpaces(a) && s != "" && !IsSpace(s[0])
    ensures TrimLeft(a + s) == s
  {
    if a == "" {
      assert a + s == s;
    } else {
      assert a[0] in a && (a + s)[0] == a[0] && (a + s)[1..] == a[1..] + s;
      TrimLeftBlanks(a[1..], s);
    }
  }

  lemma {:induction false} TrimRightBlanks(s: string, b: string)
    requires AllSpaces(b) && s != "" && !IsSpace(s[|s| - 1])
    ensures TrimRight(s + b) == s
  {
    if b == "" {
      assert s + b == s;
    } else {
      var last := |b| - 1;
      assert b[last] in b && (s + b)[|s + b| - 1] == b[last] && (s + b)[..|s + b| - 1] == s + b[..last];
      TrimRightBlanks(s, b[..last]);
    }
  }

  /** Blanks around a text are not part of it. */
  lemma TrimBlanks(a: string, s: string, b: string)
    requires AllSpaces(a) && AllSpaces(b) && s != "" && !IsSpace(s[0]) && !IsSpace(s[|s| - 1])
    ensures TrimSpace(a + s + b) == s
  {
    assert a + s + b == a + (s + b) && (s + b)[0] == s[0];
    TrimLeftBlanks(a, s + b);
    TrimRightBlanks(s, b);
  }

  /** The same letters, some of them written as capitals. */
  predicate SameLetters(s: string, id: string) {
    |s| == |id|
    && forall i :: 0 <= i < |s| ==> s[i] == id[i] || ('a' <= id[i] <= 'z' && s[i] as int == id[i] as int - 32)
  }

  /** Capitals are read as the small letters. */
  lemma LowerReads(s: string, id: string)
    requires SameLetters(s, id) && IsLower(id)
    ensures Lower(s) == id && forall c :: c in s ==> !IsSpace(c)
  {
    forall i | 0 <= i < |s| ensures LowerChar(s[i]) == id[i] && !IsSpace(s[i]) {
      assert id[i] in id;
    }
  }
}
