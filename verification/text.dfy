/** The string operations the parameter explanation uses: Python's
    `str.replace` and `str.split` on a single separator character. */
module Text {

  /** `q` occurs in `s` starting at index i. */
  predicate OccursAt(s: string, q: string, i: nat) {
    i + |q| <= |s| && s[i..i + |q|] == q
  }

  predicate Absent(s: string, q: string) {
    forall i: nat | i <= |s| :: !OccursAt(s, q, i)
  }

  predicate StartsWith(s: string, p: string) {
    |p| <= |s| && s[..|p|] == p
  }

  /** `s.replace(pat, rep)`: occurrences of a non-empty pattern are replaced
      left to right, a replaced occurrence is not scanned again. */
  function Replace(s: string, pat: string, rep: string): string
    requires |pat| > 0
    decreases |s|
  {
    if |s| == 0 then ""
    else if StartsWith(s, pat) then rep + Replace(s[|pat|..], pat, rep)
    else [s[0]] + Replace(s[1..], pat, rep)
  }

  /** Index of the first `c` in `s`, or |s| when there is none. */
  function IndexOf(s: string, c: char): (i: nat)
    ensures i <= |s|
    ensures forall k | 0 <= k < i :: s[k] != c
    ensures i < |s| ==> s[i] == c
  {
    if |s| == 0 then 0
    else if s[0] == c then 0
    else 1 + IndexOf(s[1..], c)
  }

  /** `s.split(sep)`: the pieces between separators; never empty. */
  function Split(s: string, sep: char): (lines: seq<string>)
    ensures |lines| >= 1
    ensures forall k | 0 <= k < |lines| :: sep !in lines[k]
    decreases |s|
  {
    var i := IndexOf(s, sep);
    if i == |s| then [s] else [s[..i]] + Split(s[i + 1..], sep)
  }

  /** `sep.join(lines)`. */
  function Join(lines: seq<string>, sep: char): string
    requires |lines| >= 1
  {
    if |lines| == 1 then lines[0] else lines[0] + [sep] + Join(lines[1..], sep)
  }

  // ---------------------------------------------------------------------
  // Lemmas

  /** Joining the pieces of a split gives the string back. */
  lemma {:induction false} JoinSplit(s: string, sep: char)
    ensures Join(Split(s, sep), sep) == s
    decreases |s|
  {
    var i := IndexOf(s, sep);
    if i < |s| {
      var head, rest := s[..i], s[i + 1..];
      assert Split(s, sep) == [head] + Split(rest, sep);
      JoinSplit(rest, sep);
      JoinCons(head, Split(rest, sep), sep);
      Around(s, i);
    } else {
      assert Split(s, sep) == [s];
    }
  }

  /** A string is its part before index i, s[i], and its part after. */
  lemma Around(s: string, i: nat)
    requires i < |s|
    ensures s == s[..i] + [s[i]] + s[i + 1..]
  {
  }

  lemma JoinCons(head: string, lines: seq<string>, sep: char)
    requires |lines| >= 1
    ensures Join([head] + lines, sep) == head + [sep] + Join(lines, sep)
  {
    assert ([head] + lines)[1..] == lines;
  }

  /** Splitting a join of separator-free pieces gives the pieces back. */
  lemma {:induction false} SplitJoin(lines: seq<string>, sep: char)
    requires |lines| >= 1
    requires forall k | 0 <= k < |lines| :: sep !in lines[k]
    ensures Split(Join(lines, sep), sep) == lines
    decreases |lines|
  {
    if |lines| == 1 {
      assert IndexOf(lines[0], sep) == |lines[0]|;
    } else {
      var rest := Join(lines[1..], sep);
      SplitCons(lines[0], sep, rest);
      SplitJoin(lines[1..], sep);
      assert lines == [lines[0]] + lines[1..];
    }
  }

  /** A separator-free head followed by the separator is split off first. */
  lemma SplitCons(head: string, sep: char, rest: string)
    requires sep !in head
    ensures Split(head + [sep] + rest, sep) == [head] + Split(rest, sep)
  {
    var s := head + [sep] + rest;
    IndexOfAfterFree(head, sep, rest);
    assert s[..|head|] == head;
    assert s[|head| + 1..] == rest;
  }

  lemma IndexOfAfterFree(head: string, sep: char, rest: string)
    requires sep !in head
    ensures IndexOf(head + [sep] + rest, sep) == |head|
  {
    var s := head + [sep] + rest;
    assert s[|head|] == sep;
    assert forall k | 0 <= k < |head| :: s[k] == head[k];
  }

  /** A substring of a string without `q` has no `q` either. */
  lemma AbsentSlice(s: string, q: string, lo: nat, hi: nat)
    requires lo <= hi <= |s| && Absent(s, q)
    ensures Absent(s[lo..hi], q)
  {
    var t := s[lo..hi];
    forall i: nat | i <= |t|
      ensures !OccursAt(t, q, i)
    {
      assert !OccursAt(s, q, lo + i);
      if i + |q| <= |t| {
        var u, v := t[i..i + |q|], s[lo + i..lo + i + |q|];
        forall k | 0 <= k < |q|
          ensures u[k] == v[k]
        {
          assert t[i + k] == s[lo + i + k];
        }
        assert u == v;
      }
    }
  }

  /** No line of a split contains a word the whole string lacks. */
  lemma {:induction false} SplitKeepsAbsent(s: string, sep: char, q: string)
    requires Absent(s, q)
    ensures forall k | 0 <= k < |Split(s, sep)| :: Absent(Split(s, sep)[k], q)
    decreases |s|
  {
    var i := IndexOf(s, sep);
    if i < |s| {
      AbsentSlice(s, q, 0, i);
      AbsentSlice(s, q, i + 1, |s|);
      assert s[i + 1..|s|] == s[i + 1..];
      SplitKeepsAbsent(s[i + 1..], sep, q);
      assert s[..i] == s[0..i];
    }
  }

  /** If a replacement result starts with `q` and the replacement text
      cannot begin inside `q`, the original already started with `q`. */
  lemma {:induction false} ReplacePrefix(t: string, pat: string, rep: string, q: string)
    requires |pat| > 0 && |rep| > 0 && rep[0] !in q
    requires StartsWith(Replace(t, pat, rep), q)
    ensures StartsWith(t, q)
    decreases |t|
  {
    if |q| > 0 && |t| > 0 {
      var r := Replace(t, pat, rep);
      assert r[..|q|] == q;
      assert r[0] == q[0] && q[0] in q;
      if StartsWith(t, pat) {
        assert false;
      } else {
        var r' := Replace(t[1..], pat, rep);
        assert r == [t[0]] + r';
        assert r[1..|q|] == q[1..];
        assert r'[..|q| - 1] == r[1..|q|];
        ReplacePrefix(t[1..], pat, rep, q[1..]);
        assert t[..|q|] == [t[0]] + t[1..][..|q| - 1];
      }
    }
  }

  /** After `Replace(s, pat, rep)` the word `q` does not occur, when `q` is
      the replaced pattern itself or was absent before, provided neither of
      `q` and `rep` can start inside the other. */
  lemma {:induction false} ReplaceAbsent(s: string, pat: string, rep: string, q: string)
    requires |pat| > 0 && |rep| > 0 && |q| > 0
    requires q[0] !in rep && rep[0] !in q
    requires q == pat || Absent(s, q)
    ensures Absent(Replace(s, pat, rep), q)
    decreases |s|
  {
    if |s| == 0 {
      assert Replace(s, pat, rep) == "";
    } else if StartsWith(s, pat) {
      var rest := s[|pat|..];
      if q != pat {
        AbsentSlice(s, q, |pat|, |s|);
        assert s[|pat|..|s|] == rest;
      }
      ReplaceAbsent(rest, pat, rep, q);
      AbsentAfterRep(rep, Replace(rest, pat, rep), q);
    } else {
      if q != pat {
        AbsentSlice(s, q, 1, |s|);
        assert s[1..|s|] == s[1..];
      }
      ReplaceAbsent(s[1..], pat, rep, q);
      if OccursAt(Replace(s, pat, rep), q, 0) {
        ReplaceStartsWith(s, pat, rep, q);
      }
      AbsentAfterChar(s[0], Replace(s[1..], pat, rep), q);
    }
  }

  /** `rep + r'` has no `q` when `r'` has none and `q` cannot start in `rep`. */
  lemma AbsentAfterRep(rep: string, r': string, q: string)
    requires |q| > 0 && q[0] !in rep && Absent(r', q)
    ensures Absent(rep + r', q)
  {
    var r := rep + r';
    forall i: nat | i <= |r|
      ensures !OccursAt(r, q, i)
    {
      if i < |rep| {
        assert rep[i] in rep;
        if i + |q| <= |r| {
          assert r[i..i + |q|][0] == rep[i];
        }
      } else {
        assert !OccursAt(r', q, i - |rep|);
        if i + |q| <= |r| {
          assert r[i..i + |q|] == r'[i - |rep|..i - |rep| + |q|];
        }
      }
    }
  }

  /** `[c] + r'` has no `q` when `r'` has none and it does not start with `q`. */
  lemma AbsentAfterChar(c: char, r': string, q: string)
    requires Absent(r', q) && !OccursAt([c] + r', q, 0)
    ensures Absent([c] + r', q)
  {
    var r := [c] + r';
    forall i: nat | 0 < i <= |r|
      ensures !OccursAt(r, q, i)
    {
      assert !OccursAt(r', q, i - 1);
      if i + |q| <= |r| {
        assert r[i..i + |q|] == r'[i - 1..i - 1 + |q|];
      }
    }
  }

  /** A replacement result that does not start with the pattern and starts
      with `q` came from a string that starts with `q`. */
  lemma ReplaceStartsWith(s: string, pat: string, rep: string, q: string)
    requires |pat| > 0 && |rep| > 0 && |q| > 0 && rep[0] !in q
    requires |s| > 0 && !StartsWith(s, pat)
    requires OccursAt(Replace(s, pat, rep), q, 0)
    ensures OccursAt(s, q, 0)
  {
    var r := Replace(s, pat, rep);
    var r' := Replace(s[1..], pat, rep);
    assert r == [s[0]] + r';
    assert StartsWith(r, q) by {
      assert r[0..|q|] == r[..|q|];
    }
    ConsStartsWith([s[0]] + r', q);
    assert ([s[0]] + r')[1..] == r';
    NotInTail(q, rep[0]);
    ReplacePrefix(s[1..], pat, rep, q[1..]);
    ConsStartsWith(s, q);
    assert s[0..|q|] == s[..|q|];
  }

  /** A character missing from a string is missing from its tail. */
  lemma NotInTail(q: string, c: char)
    requires |q| > 0 && c !in q
    ensures c !in q[1..]
  {
    forall k | 0 <= k < |q| - 1
      ensures q[1..][k] != c
    {
      assert q[1..][k] == q[k + 1];
    }
  }

  /** A non-empty string starts with `q` exactly when its first character is
      q's and its tail starts with q's tail. */
  lemma ConsStartsWith(s: string, q: string)
    requires |s| > 0 && |q| > 0
    ensures StartsWith(s, q) <==> s[0] == q[0] && StartsWith(s[1..], q[1..])
  {
    if s[0] == q[0] && StartsWith(s[1..], q[1..]) {
      forall k | 0 <= k < |q|
        ensures s[k] == q[k]
      {
        if k > 0 {
          assert s[1..][..|q| - 1][k - 1] == q[1..][k - 1];
        }
      }
      assert s[..|q|] == q;
    }
    if StartsWith(s, q) {
      assert s[..|q|][0] == q[0];
      var u, v := s[1..][..|q| - 1], q[1..];
      forall k | 0 <= k < |q| - 1
        ensures u[k] == v[k]
      {
        assert u[k] == s[..|q|][k + 1];
      }
      assert u == v;
    }
  }

  /** A string without the pattern is left unchanged. */
  lemma {:induction false} ReplaceIdentity(s: string, pat: string, rep: string)
    requires |pat| > 0 && Absent(s, pat)
    ensures Replace(s, pat, rep) == s
    decreases |s|
  {
    if |s| > 0 {
      assert !OccursAt(s, pat, 0);
      StartsAtZero(s, pat);
      AbsentSlice(s, pat, 1, |s|);
      assert s[1..|s|] == s[1..];
      ReplaceIdentity(s[1..], pat, rep);
      assert [s[0]] + s[1..] == s;
    }
  }

  /** The first occurrence is replaced and the scan resumes after it: the
      text before it, which holds no occurrence, is kept as it is. */
  lemma {:induction false} ReplaceFirst(a: string, pat: string, b: string, rep: string)
    requires |pat| > 0
    requires forall i | 0 <= i < |a| :: !OccursAt(a + pat + b, pat, i)
    ensures Replace(a + pat + b, pat, rep) == a + rep + Replace(b, pat, rep)
    decreases |a|
  {
    var s := a + pat + b;
    if |a| == 0 {
      assert s == pat + b;
      assert s[..|pat|] == pat;
      assert s[|pat|..] == b;
    } else {
      assert !OccursAt(s, pat, 0);
      StartsAtZero(s, pat);
      var t := a[1..] + pat + b;
      assert s[1..] == t;
      forall i | 0 <= i < |a[1..]|
        ensures !OccursAt(t, pat, i)
      {
        assert !OccursAt(s, pat, i + 1);
        assert t[i..i + |pat|] == s[i + 1..i + 1 + |pat|];
      }
      ReplaceFirst(a[1..], pat, b, rep);
      assert [s[0]] + a[1..] == a;
    }
  }

  lemma StartsAtZero(s: string, q: string)
    ensures StartsWith(s, q) <==> OccursAt(s, q, 0)
  {
    if |q| <= |s| {
      assert s[0..|q|] == s[..|q|];
    }
  }
}
