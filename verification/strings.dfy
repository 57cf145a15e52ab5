/** Python string operations used by the curation scripts, on `string` (= seq<char>). */
module Strings {

  /** Python's `sub in s`: `sub` occurs somewhere in `s` as a contiguous block. */
  predicate Contains(s: string, sub: string)
    decreases |s|
  {
    sub <= s || (s != [] && Contains(s[1..], sub))
  }

  /** An occurrence is a position where `sub` starts. */
  ghost predicate OccursAt(s: string, sub: string, i: int)
  {
    0 <= i <= |s| - |sub| && s[i..i + |sub|] == sub
  }

  lemma {:induction false} ContainsIffOccurs(s: string, sub: string)
    ensures Contains(s, sub) <==> exists i :: OccursAt(s, sub, i)
    decreases |s|
  {
    if sub <= s {
      assert OccursAt(s, sub, 0);
    } else if s == [] {
      assert forall i :: !OccursAt(s, sub, i);
    } else {
      ContainsIffOccurs(s[1..], sub);
      if Contains(s[1..], sub) {
        var i :| OccursAt(s[1..], sub, i);
        assert s[i + 1..i + 1 + |sub|] == s[1..][i..i + |sub|];
        assert OccursAt(s, sub, i + 1);
      } else {
        forall i ensures !OccursAt(s, sub, i) {
          if 1 <= i <= |s| - |sub| {
            assert s[1..][i - 1..i - 1 + |sub|] == s[i..i + |sub|];
            assert !OccursAt(s[1..], sub, i - 1);
          } else if i == 0 && |sub| <= |s| {
            assert s[0..|sub|] == s[..|sub|];
          }
        }
      }
    }
  }

  /** Anything that contains `sub` contains its last character. */
  lemma {:induction false} ContainsLastChar(s: string, sub: string)
    requires sub != [] && Contains(s, sub)
    ensures sub[|sub| - 1] in s
    decreases |s|
  {
    if sub <= s {
      assert s[|sub| - 1] == sub[|sub| - 1];
    } else {
      ContainsLastChar(s[1..], sub);
    }
  }

  /**
   * Appending a block `u` that lacks the last character of `sub` cannot create an
   * occurrence of `sub`: every occurrence must end inside the old text.
   */
  lemma {:induction false} NotContainsAppend(p: string, u: string, sub: string)
    requires sub != [] && !Contains(p, sub) && sub[|sub| - 1] !in u
    ensures !Contains(p + u, sub)
    decreases |p|
  {
    if p == [] {
      assert p + u == u;
      if Contains(u, sub) { ContainsLastChar(u, sub); }
    } else {
      if |sub| <= |p| {
        assert (p + u)[..|sub|] == p[..|sub|];
      } else if |sub| <= |p| + |u| {
        assert (p + u)[|sub| - 1] == u[|sub| - 1 - |p|];
      }
      assert (p + u)[1..] == p[1..] + u;
      NotContainsAppend(p[1..], u, sub);
    }
  }

  /**
   * Python's `s.replace(tok, '')` for a non-empty `tok`: one left-to-right pass that
   * deletes every non-overlapping occurrence of `tok`.
   */
  function Remove(s: string, tok: string): (r: string)
    requires tok != []
    decreases |s|
  {
    if s == [] then []
    else if tok <= s then Remove(s[|tok|..], tok)
    else [s[0]] + Remove(s[1..], tok)
  }

  /** Removing never lengthens a string, and it shortens it exactly when there was an occurrence. */
  lemma {:induction false} RemoveShortens(s: string, tok: string)
    requires tok != []
    ensures |Remove(s, tok)| <= |s|
    ensures |Remove(s, tok)| < |s| <==> Contains(s, tok)
    decreases |s|
  {
    if s == [] {
    } else if tok <= s {
      RemoveShortens(s[|tok|..], tok);
    } else {
      RemoveShortens(s[1..], tok);
    }
  }

  /** A string with no occurrence of `tok` comes back unchanged, and only such a string does. */
  lemma RemoveIdentity(s: string, tok: string)
    requires tok != []
    ensures Remove(s, tok) == s <==> !Contains(s, tok)
  {
    RemoveShortens(s, tok);
    if !Contains(s, tok) { RemoveAbsent(s, tok); }
  }

  lemma {:induction false} RemoveAbsent(s: string, tok: string)
    requires tok != [] && !Contains(s, tok)
    ensures Remove(s, tok) == s
    decreases |s|
  {
    if s != [] {
      RemoveAbsent(s[1..], tok);
    }
  }

  /** `tok`'s first character occurs nowhere else in it, so two occurrences can never overlap. */
  predicate Unbordered(tok: string)
  {
    tok != [] && tok[0] !in tok[1..]
  }

  /** A trailing occurrence of an unbordered token is removed and nothing else changes. */
  lemma {:induction false} RemoveTrailing(p: string, tok: string)
    requires Unbordered(tok)
    ensures Remove(p + tok, tok) == Remove(p, tok)
    decreases |p|
  {
    if p == [] {
      assert p + tok == tok;
      assert tok[|tok|..] == [];
    } else if |p| < |tok| {
      assert (p + tok)[|p|] == tok[0];
      assert tok[1..][|p| - 1] == tok[|p|];
      assert (p + tok)[1..] == p[1..] + tok;
      RemoveTrailing(p[1..], tok);
    } else if tok <= p {
      assert (p + tok)[..|tok|] == p[..|tok|];
      assert (p + tok)[|tok|..] == p[|tok|..] + tok;
      RemoveTrailing(p[|tok|..], tok);
    } else {
      assert (p + tok)[..|tok|] == p[..|tok|];
      assert (p + tok)[1..] == p[1..] + tok;
      RemoveTrailing(p[1..], tok);
    }
  }

  /** Python's `s.split(sep)` with an explicit one-character separator. */
  function Split(s: string, sep: char): (parts: seq<string>)
    ensures |parts| >= 1
    decreases |s|
  {
    if s == [] then [[]]
    else
      var rest := Split(s[1..], sep);
      if s[0] == sep then [[]] + rest else [[s[0]] + rest[0]] + rest[1..]
  }

  /** Python's `sep.join(parts)`. */
  function Join(parts: seq<string>, sep: char): (r: string)
  {
    if parts == [] then []
    else if |parts| == 1 then parts[0]
    else parts[0] + [sep] + Join(parts[1..], sep)
  }

  /** Number of occurrences of a character. */
  function Count(s: string, c: char): (r: nat)
  {
    if s == [] then 0 else (if s[0] == c then 1 else 0) + Count(s[1..], c)
  }

  /**
   * `split` and `join` are inverse: the pieces join back to the string, none of them
   * holds the separator, and there is one more piece than there are separators.
   */
  lemma {:induction false} SplitJoin(s: string, sep: char)
    ensures Join(Split(s, sep), sep) == s
    ensures forall i :: 0 <= i < |Split(s, sep)| ==> sep !in Split(s, sep)[i]
    ensures |Split(s, sep)| == Count(s, sep) + 1
    decreases |s|
  {
    if s != [] {
      SplitJoin(s[1..], sep);
      var rest := Split(s[1..], sep);
      if s[0] == sep {
        assert Split(s, sep) == [[]] + rest;
        assert ([[]] + rest)[1..] == rest;
      } else {
        var parts := Split(s, sep);
        assert parts == [[s[0]] + rest[0]] + rest[1..];
        if |rest| == 1 {
          assert rest == [rest[0]];
        } else {
          assert parts[1..] == rest[1..];
          assert Join(rest, sep) == rest[0] + [sep] + Join(rest[1..], sep);
        }
        forall i | 0 <= i < |parts| ensures sep !in parts[i] {
          if i > 0 { assert parts[i] == rest[i]; }
        }
      }
    }
  }
}
