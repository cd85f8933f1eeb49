// Glob matching (internal/common/pattern.go): email patterns and reserved names.
module Patterns {
  import opened Text

  /** One piece of the expression MatchGlob writes: ".*" or a quoted character. */
  datatype Atom = AnyRun | Literal(c: char)

  function AtomOf(c: char): Atom {
    if c == '*' then AnyRun else Literal(c)
  }

  function Compiled(glob: string): (atoms: seq<Atom>)
    ensures |atoms| == |glob|
  {
    seq(|glob|, i requires 0 <= i < |glob| => AtomOf(glob[i]))
  }

  /** Anchored matching of an expression of atoms; "." does not match a line break. */
  predicate Accepts(atoms: seq<Atom>, s: string)
    decreases |atoms|, |s|
  {
    if atoms == [] then s == ""
    else match atoms[0]
      case AnyRun => Accepts(atoms[1..], s) || (s != "" && s[0] != '\n' && Accepts(atoms, s[1..]))
      case Literal(c) => s != "" && s[0] == c && Accepts(atoms[1..], s[1..])
  }

  /** What MatchGlob answers. */
  predicate GlobMatches(pattern: string, s: string) {
    var p := Lower(TrimSpace(pattern));
    var e := Lower(TrimSpace(s));
    p != "" && e != "" && Accepts(Compiled(p), e)
  }

  /** MatchGlob builds its expression character by character. */
  method MatchGlob(pattern: string, s: string) returns (matched: bool)
    ensures matched <==> GlobMatches(pattern, s)
  {
    var p := Lower(TrimSpace(pattern));
    var e := Lower(TrimSpace(s));
    if p == "" || e == "" {
      return false;
    }
    var atoms: seq<Atom> := [];
    for i := 0 to |p|
      invariant atoms == Compiled(p)[..i]
    {
      if p[i] == '*' {
        atoms := atoms + [AnyRun];
      } else {
        atoms := atoms + [Literal(p[i])];
      }
    }
    assert Compiled(p)[..|p|] == Compiled(p);
    matched := Accepts(atoms, e);
  }

  // ── The meaning of a glob ───────────────────────────────────────────────────

  /** The string a glob stands for once its k-th star is replaced by runs[k]. */
  function Filled(glob: string, runs: seq<string>): (s: string)
    requires |runs| == Stars(glob)
  {
    if glob == "" then ""
    else if glob[0] == '*' then runs[0] + Filled(glob[1..], runs[1..])
    else [glob[0]] + Filled(glob[1..], runs)
  }

  function Stars(glob: string): nat {
    if glob == "" then 0 else (if glob[0] == '*' then 1 else 0) + Stars(glob[1..])
  }

  ghost predicate IsFilling(glob: string, runs: seq<string>, s: string) {
    |runs| == Stars(glob)
    && (forall k :: 0 <= k < |runs| ==> '\n' !in runs[k])
    && Filled(glob, runs) == s
  }

  lemma CompiledTail(glob: string)
    requires glob != ""
    ensures Compiled(glob)[1..] == Compiled(glob[1..])
  {
  }

  /** A glob accepts exactly the strings got by replacing every star with some run of characters on one line. */
  lemma {:induction false} AcceptsMeansFilled(glob: string, s: string)
    ensures Accepts(Compiled(glob), s) <==> exists runs :: IsFilling(glob, runs, s)
    decreases |glob|, |s|
  {
    if Accepts(Compiled(glob), s) {
      var runs := Fill(glob, s);
    }
    if runs :| IsFilling(glob, runs, s) {
      FillingAccepted(glob, runs, s);
    }
  }

  lemma {:induction false} Fill(glob: string, s: string) returns (runs: seq<string>)
    requires Accepts(Compiled(glob), s)
    ensures IsFilling(glob, runs, s)
    decreases |glob|, |s|
  {
    if glob == "" {
      runs := [];
    } else if glob[0] != '*' {
      CompiledTail(glob);
      runs := Fill(glob[1..], s[1..]);
      assert s == [s[0]] + s[1..];
    } else {
      CompiledTail(glob);
      if Accepts(Compiled(glob[1..]), s) {
        var rest := Fill(glob[1..], s);
        runs := [""] + rest;
        assert runs[1..] == rest;
      } else {
        var rest := Fill(glob, s[1..]);
        runs := [[s[0]] + rest[0]] + rest[1..];
        assert runs[1..] == rest[1..];
        assert s == [s[0]] + s[1..];
      }
    }
  }

  lemma {:induction false} FillingAccepted(glob: string, runs: seq<string>, s: string)
    requires IsFilling(glob, runs, s)
    ensures Accepts(Compiled(glob), s)
    decreases |glob|, |s|
  {
    if glob != "" {
      CompiledTail(glob);
      if glob[0] != '*' {
        assert s[1..] == Filled(glob[1..], runs);
        FillingAccepted(glob[1..], runs, s[1..]);
      } else if runs[0] == "" {
        assert Filled(glob[1..], runs[1..]) == s;
        FillingAccepted(glob[1..], runs[1..], s);
      } else {
        var shorter := [runs[0][1..]] + runs[1..];
        assert shorter[1..] == runs[1..];
        assert s == runs[0] + Filled(glob[1..], runs[1..]);
        assert s[1..] == runs[0][1..] + Filled(glob[1..], runs[1..]);
        assert s[0] in runs[0];
        FillingAccepted(glob, shorter, s[1..]);
      }
    }
  }

  /** A glob without a star is a literal. */
  lemma {:induction false} LiteralGlob(glob: string, s: string)
    requires '*' !in glob
    ensures Accepts(Compiled(glob), s) <==> s == glob
  {
    if glob != "" && s != "" {
      CompiledTail(glob);
      LiteralGlob(glob[1..], s[1..]);
      assert glob == [glob[0]] + glob[1..] && s == [s[0]] + s[1..];
    }
  }

  /** A star in front of a literal matches what ends in that literal. */
  lemma {:induction false} SuffixGlob(tail: string, s: string)
    requires '*' !in tail && '\n' !in s
    ensures Accepts(Compiled("*" + tail), s) <==> |tail| <= |s| && s[|s| - |tail|..] == tail
    decreases |s|
  {
    var glob := "*" + tail;
    CompiledTail(glob);
    assert glob[1..] == tail;
    LiteralGlob(tail, s);
    if s != "" {
      SuffixGlob(tail, s[1..]);
      if |tail| <= |s| - 1 {
        assert s[1..][|s| - 1 - |tail|..] == s[|s| - |tail|..];
      }
    }
  }
}
