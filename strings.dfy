/**
 * The string operations the cleanup engine relies on, with JavaScript's
 * semantics: `includes`, `split('\n')`, `join('\n')`, `split('*')[0]`,
 * `replace('*', v)` with a string pattern, and `path.join` modelled as
 * concatenation with '/'.
 */
module Strings {

  predicate StartsWith(s: string, p: string)
  {
    |p| <= |s| && s[..|p|] == p
  }

  /** A string that differs from `p` at a position inside both does not start with `p`. */
  lemma DiffersAt(s: string, p: string, k: nat)
    requires k < |s| && k < |p| && s[k] != p[k]
    ensures !StartsWith(s, p)
  {
  }

  /** `s.includes(p)`: `p` occurs somewhere in `s` (the empty string occurs everywhere). */
  predicate Contains(s: string, p: string)
    decreases |s|
  {
    StartsWith(s, p) || (s != [] && Contains(s[1..], p))
  }

  /** `path.join(a, b)` for the relative, already normalised segments used here. */
  function PathJoin(a: string, b: string): string
  {
    a + "/" + b
  }

  /** `s.split('\n')`: never empty; a trailing newline yields a trailing empty line. */
  function Split(s: string): (lines: seq<string>)
    ensures |lines| >= 1
  {
    if s == [] then [""]
    else
      var rest := Split(s[1..]);
      if s[0] == '\n' then [""] + rest else [[s[0]] + rest[0]] + rest[1..]
  }

  /** `lines.join('\n')`. */
  function Join(lines: seq<string>): string
  {
    if |lines| == 0 then ""
    else if |lines| == 1 then lines[0]
    else lines[0] + "\n" + Join(lines[1..])
  }

  /** `s.split('*')[0]`: everything before the first '*' (all of `s` if there is none). */
  function PrefixBeforeStar(s: string): (b: string)
    ensures |b| <= |s| && s[..|b|] == b
  {
    if s == [] || s[0] == '*' then [] else [s[0]] + PrefixBeforeStar(s[1..])
  }

  /**
   * The replacement text of `replace` with a string pattern: in `v`, `$$` stands
   * for `$`, `$&` for the matched text, `` $` `` for the text before the match and
   * `$'` for the text after it; any other `$` is taken literally (a string pattern
   * has no capture groups, so `$1` or `$<name>` stay as written).
   */
  function Substitute(v: string, matched: string, before: string, after: string): string
    decreases |v|
  {
    if v == [] then []
    else if v[0] == '$' && |v| >= 2 && v[1] in "$&`'" then
      (if v[1] == '$' then "$" else if v[1] == '&' then matched else if v[1] == '`' then before else after)
      + Substitute(v[2..], matched, before, after)
    else [v[0]] + Substitute(v[1..], matched, before, after)
  }

  /**
   * `s.replace('*', v)`: only the FIRST '*' is replaced, by `v` with its `$`
   * patterns expanded; no '*' leaves `s` as it is.
   */
  function ReplaceFirstStar(s: string, v: string): string
  {
    ReplaceStarAfter([], s, v)
  }

  /** The scan behind `ReplaceFirstStar`, with `done` the text already passed over. */
  function ReplaceStarAfter(done: string, s: string, v: string): string
    decreases |s|
  {
    if s == [] then done
    else if s[0] == '*' then done + Substitute(v, "*", done, s[1..]) + s[1..]
    else ReplaceStarAfter(done + [s[0]], s[1..], v)
  }

  // ---------------------------------------------------------------- Contains

  /** A pattern whose first character never occurs in `s` does not occur in `s`. */
  lemma {:induction false} ContainsNeedsHead(s: string, p: string)
    requires p != [] && p[0] !in s
    ensures !Contains(s, p)
    decreases |s|
  {
    if s != [] {
      assert !StartsWith(s, p) by { if |p| <= |s| { assert s[..|p|][0] == s[0]; } }
      ContainsNeedsHead(s[1..], p);
    }
  }

  lemma {:induction false} ContainsDrop(s: string, k: nat, p: string)
    requires k <= |s| && Contains(s[k..], p)
    ensures Contains(s, p)
  {
    if k > 0 {
      assert s[1..][k - 1..] == s[k..];
      ContainsDrop(s[1..], k - 1, p);
    }
  }

  lemma {:induction false} ContainsAppendLeft(a: string, b: string, p: string)
    requires Contains(a, p)
    ensures Contains(a + b, p)
    decreases |a|
  {
    if StartsWith(a, p) {
      assert (a + b)[..|p|] == a[..|p|];
    } else {
      assert (a + b)[1..] == a[1..] + b;
      ContainsAppendLeft(a[1..], b, p);
    }
  }

  lemma {:induction false} ContainsAppendRight(a: string, b: string, p: string)
    requires Contains(b, p)
    ensures Contains(a + b, p)
  {
    assert (a + b)[|a|..] == b;
    ContainsDrop(a + b, |a|, p);
  }

  /** A piece of a pattern occurs wherever the whole pattern does. */
  lemma {:induction false} ContainsPatternSuffix(s: string, x: string, y: string)
    requires Contains(s, x + y)
    ensures Contains(s, y)
    decreases |s|
  {
    if StartsWith(s, x + y) {
      assert s[..|x + y|] == x + y;
      assert s[|x|..][..|y|] == s[..|x + y|][|x|..] == y;
      ContainsDrop(s, |x|, y);
    } else {
      ContainsPatternSuffix(s[1..], x, y);
      ContainsDrop(s, 1, y);
    }
  }

  /** A non-empty pattern without a newline cannot straddle a newline. */
  lemma {:induction false} ContainsAcrossNewline(a: string, b: string, p: string)
    requires p != [] && '\n' !in p
    requires Contains(a + "\n" + b, p)
    ensures Contains(a, p) || Contains(b, p)
    decreases |a|
  {
    var s := a + "\n" + b;
    if a == [] {
      assert s == "\n" + b;
      assert !StartsWith(s, p) by { assert s[0] == '\n'; }
      assert s[1..] == b;
    } else if StartsWith(s, p) {
      assert s[|a|] == '\n';
      assert |p| <= |a|;
      assert a[..|p|] == s[..|p|];
    } else {
      assert s[1..] == a[1..] + "\n" + b;
      ContainsAcrossNewline(a[1..], b, p);
      if Contains(a[1..], p) { ContainsDrop(a, 1, p); }
    }
  }

  // ---------------------------------------------------------------- Split / Join

  /** No line produced by `split('\n')` contains a newline. */
  lemma {:induction false} SplitNoNewline(s: string)
    ensures forall i :: 0 <= i < |Split(s)| ==> '\n' !in Split(s)[i]
  {
    if s != [] {
      SplitNoNewline(s[1..]);
      var rest := Split(s[1..]);
      if s[0] != '\n' {
        assert Split(s)[0] == [s[0]] + rest[0];
        forall i | 1 <= i < |Split(s)| ensures '\n' !in Split(s)[i] {
          assert Split(s)[i] == rest[i];
        }
      } else {
        forall i | 1 <= i < |Split(s)| ensures '\n' !in Split(s)[i] {
          assert Split(s)[i] == rest[i - 1];
        }
      }
    }
  }

  lemma {:induction false} JoinCons(l: string, ls: seq<string>)
    requires ls != []
    ensures Join([l] + ls) == l + "\n" + Join(ls)
  {
    assert ([l] + ls)[1..] == ls;
  }

  /** joining the lines of `s` gives `s` back. */
  lemma {:induction false} JoinSplit(s: string)
    ensures Join(Split(s)) == s
  {
    if s != [] {
      JoinSplit(s[1..]);
      var rest := Split(s[1..]);
      if s[0] == '\n' {
        JoinCons("", rest);
        assert s == "\n" + s[1..];
      } else if |rest| == 1 {
        assert s == [s[0]] + rest[0];
      } else {
        var lines := [[s[0]] + rest[0]] + rest[1..];
        assert lines[1..] == rest[1..];
        assert Join(rest) == rest[0] + "\n" + Join(rest[1..]);
        assert s == [s[0]] + s[1..];
      }
    }
  }

  lemma {:induction false} SplitPlain(a: string)
    requires '\n' !in a
    ensures Split(a) == [a]
  {
    if a != [] {
      assert '\n' !in a[1..] by { forall c | c in a[1..] ensures c in a { } }
      SplitPlain(a[1..]);
      assert a == [a[0]] + a[1..];
    }
  }

  lemma {:induction false} SplitAfterLine(a: string, b: string)
    requires '\n' !in a
    ensures Split(a + "\n" + b) == [a] + Split(b)
  {
    if a == [] {
      assert a + "\n" + b == "\n" + b;
      assert ("\n" + b)[1..] == b;
    } else {
      assert '\n' !in a[1..] by { forall c | c in a[1..] ensures c in a { } }
      SplitAfterLine(a[1..], b);
      assert (a + "\n" + b)[1..] == a[1..] + "\n" + b;
      assert a == [a[0]] + a[1..];
    }
  }

  /** Splitting a join of newline-free lines gives the lines back. */
  lemma {:induction false} SplitJoin(lines: seq<string>)
    requires |lines| >= 1
    requires forall i :: 0 <= i < |lines| ==> '\n' !in lines[i]
    ensures Split(Join(lines)) == lines
  {
    if |lines| == 1 {
      SplitPlain(lines[0]);
    } else {
      SplitJoin(lines[1..]);
      SplitAfterLine(lines[0], Join(lines[1..]));
      assert lines == [lines[0]] + lines[1..];
    }
  }

  /** A pattern found in one line is found in the joined text. */
  lemma {:induction false} JoinContainsLine(lines: seq<string>, i: nat, p: string)
    requires i < |lines| && Contains(lines[i], p)
    ensures Contains(Join(lines), p)
  {
    if |lines| > 1 {
      if i == 0 {
        ContainsAppendLeft(lines[0], "\n" + Join(lines[1..]), p);
        assert lines[0] + "\n" + Join(lines[1..]) == lines[0] + ("\n" + Join(lines[1..]));
      } else {
        JoinContainsLine(lines[1..], i - 1, p);
        ContainsAppendRight(lines[0] + "\n", Join(lines[1..]), p);
      }
    }
  }

  /** A newline-free pattern absent from every line is absent from the joined text. */
  lemma {:induction false} JoinAvoids(lines: seq<string>, p: string)
    requires p != [] && '\n' !in p
    requires forall i :: 0 <= i < |lines| ==> !Contains(lines[i], p)
    ensures !Contains(Join(lines), p)
  {
    if |lines| == 0 {
      assert !StartsWith("", p);
    } else if |lines| > 1 {
      JoinAvoids(lines[1..], p);
      if Contains(Join(lines), p) {
        ContainsAcrossNewline(lines[0], Join(lines[1..]), p);
        assert false;
      }
    }
  }

  /** A newline-free pattern occurs in a text exactly when it occurs in one of its lines. */
  lemma ContainsIffSomeLine(s: string, p: string)
    requires '\n' !in p
    ensures Contains(s, p) <==> exists i :: 0 <= i < |Split(s)| && Contains(Split(s)[i], p)
  {
    JoinSplit(s);
    if p == [] {
      // the empty pattern occurs in the text and in its first line alike
      assert StartsWith(s, p) && StartsWith(Split(s)[0], p);
    } else if exists i :: 0 <= i < |Split(s)| && Contains(Split(s)[i], p) {
      var i :| 0 <= i < |Split(s)| && Contains(Split(s)[i], p);
      JoinContainsLine(Split(s), i, p);
    } else {
      JoinAvoids(Split(s), p);
    }
  }

  // ---------------------------------------------------------------- glob strings

  lemma {:induction false} ReplaceStarAfterShape(done: string, s: string, v: string)
    ensures var b := PrefixBeforeStar(s);
      ReplaceStarAfter(done, s, v) ==
        if |b| == |s| then done + s
        else done + b + Substitute(v, "*", done + b, s[|b| + 1..]) + s[|b| + 1..]
    decreases |s|
  {
    if s != [] && s[0] != '*' {
      ReplaceStarAfterShape(done + [s[0]], s[1..], v);
      var b' := PrefixBeforeStar(s[1..]);
      assert PrefixBeforeStar(s) == [s[0]] + b';
      assert done + [s[0]] + b' == done + ([s[0]] + b');
      assert s == [s[0]] + s[1..];
      if |b'| < |s[1..]| {
        assert s[1..][|b'| + 1..] == s[|b'| + 2..];
      }
    } else {
      assert done + [] == done;
    }
  }

  /**
   * Shape of a pattern with a wildcard: the prefix before the first '*' holds no
   * '*' and is followed by it, and replacing the first '*' by `v` keeps that
   * prefix and the text after the '*', with the expansion of `v` between them.
   */
  lemma {:induction false} StarShape(s: string, v: string)
    requires '*' in s
    ensures var b := PrefixBeforeStar(s);
      && '*' !in b && |b| < |s| && s[|b|] == '*'
      && s == b + "*" + s[|b| + 1..]
      && ReplaceFirstStar(s, v) == b + Substitute(v, "*", b, s[|b| + 1..]) + s[|b| + 1..]
  {
    ReplaceStarAfterShape([], s, v);
    if s[0] != '*' {
      assert '*' in s[1..] by {
        var k :| 0 <= k < |s| && s[k] == '*';
        assert s[1..][k - 1] == '*';
      }
      StarShape(s[1..], v);
    }
    var b := PrefixBeforeStar(s);
    assert [] + b == b;
  }

  /** An entry without `$` is inserted as it is. */
  lemma {:induction false} PlainSubstitute(v: string, matched: string, before: string, after: string)
    requires '$' !in v
    ensures Substitute(v, matched, before, after) == v
    decreases |v|
  {
    if v != [] {
      assert '$' !in v[1..] by { forall c | c in v[1..] ensures c in v { } }
      PlainSubstitute(v[1..], matched, before, after);
      assert v == [v[0]] + v[1..];
    }
  }

  /** For an entry without `$`, `replace` puts exactly that entry in place of the first '*'. */
  lemma PlainStarShape(s: string, v: string)
    requires '*' in s && '$' !in v
    ensures var b := PrefixBeforeStar(s);
      |b| < |s| && ReplaceFirstStar(s, v) == b + v + s[|b| + 1..]
  {
    StarShape(s, v);
    var b := PrefixBeforeStar(s);
    PlainSubstitute(v, "*", b, s[|b| + 1..]);
  }

  /** The four substitution patterns at work on a small pattern with one '*'. */
  lemma DollarPatterns()
    ensures ReplaceFirstStar("n/*/b", "$$") == "n/$/b"
    ensures ReplaceFirstStar("n/*/b", "$&") == "n/*/b"
    ensures ReplaceFirstStar("n/*/b", "$`") == "n/n//b"
    ensures ReplaceFirstStar("n/*/b", "$'") == "n//b/b"
    ensures ReplaceFirstStar("n/*/b", "$1") == "n/$1/b"
  {
    var s := "n/*/b";
    assert PrefixBeforeStar(s) == "n/" by {
      assert s[1..] == "/*/b" && s[1..][1..] == "*/b";
    }
    assert s[3..] == "/b";
    assert "$$"[2..] == [] && "$&"[2..] == [] && "$`"[2..] == [] && "$'"[2..] == [];
    assert "$1"[1..] == "1" && "1"[1..] == [];
  }

  /** Without a wildcard the prefix is the whole string and `replace` changes nothing. */
  lemma {:induction false} NoStarShape(s: string, v: string)
    requires '*' !in s
    ensures PrefixBeforeStar(s) == s && ReplaceFirstStar(s, v) == s
  {
    if s != [] {
      assert '*' !in s[1..] by { forall c | c in s[1..] ensures c in s { } }
      NoStarShape(s[1..], v);
      assert s == [s[0]] + s[1..];
    }
    ReplaceStarAfterShape([], s, v);
    assert [] + s == s;
  }

  /** Whatever the entry, the expansion begins with the text before the first '*'. */
  lemma ExpansionKeepsPrefix(s: string, v: string)
    ensures var b := PrefixBeforeStar(s);
      var e := ReplaceFirstStar(s, v);
      |b| <= |e| && e[..|b|] == b
  {
    ReplaceStarAfterShape([], s, v);
    var b := PrefixBeforeStar(s);
    if |b| < |s| {
      assert ([] + b + Substitute(v, "*", [] + b, s[|b| + 1..]) + s[|b| + 1..])[..|b|] == b;
    } else {
      assert [] + s == s;
    }
  }

  /** A wildcard-free head passes through `split('*')[0]` untouched. */
  lemma {:induction false} StarAfterHead(h: string, s: string)
    requires '*' !in h
    ensures PrefixBeforeStar(h + s) == h + PrefixBeforeStar(s)
  {
    if h != [] {
      assert '*' !in h[1..] by { forall c | c in h[1..] ensures c in h { } }
      assert (h + s)[1..] == h[1..] + s;
      StarAfterHead(h[1..], s);
    } else {
      assert h + s == s;
    }
  }
}
