/**
  The handful of java.lang.String operations the realm relies on, with Java's own
  definitions of "whitespace": `trim()` strips every character up to U+0020, while the
  regular expression `\s+` used for splitting matches only space, tab, line feed,
  vertical tab, form feed and carriage return.
 */
module JavaText {

  /** The regular-expression class `\s` (without the UNICODE_CHARACTER_CLASS flag). */
  predicate IsSpace(c: char) {
    c == ' ' || c == '\t' || c == '\n' || c == '\U{000B}' || c == '\U{000C}' || c == '\r'
  }

  /** A string containing no `\s` character. */
  predicate NoSpace(s: string) {
    forall i :: 0 <= i < |s| ==> !IsSpace(s[i])
  }

  /** A character that `String.trim()` removes from either end. */
  predicate IsTrimmable(c: char) {
    c <= ' '
  }

  /** A string that `trim()` turns into the empty string. */
  predicate IsBlank(s: string) {
    forall i :: 0 <= i < |s| ==> IsTrimmable(s[i])
  }

  /**
    `String.trim()`: leading, then trailing, trimmable characters removed; what is left
    neither starts nor ends with one.
   */
  function Trim(s: string): (r: string)
    ensures r == [] || (!IsTrimmable(r[0]) && !IsTrimmable(r[|r| - 1]))
    ensures r == [] <==> IsBlank(s)
    decreases |s|
  {
    if s != [] && IsTrimmable(s[0]) then
      assert forall i :: 0 <= i < |s| - 1 ==> s[1..][i] == s[i + 1];
      Trim(s[1..])
    else if s != [] && IsTrimmable(s[|s| - 1]) then
      assert forall i :: 0 <= i < |s| - 1 ==> s[..|s| - 1][i] == s[i];
      Trim(s[..|s| - 1])
    else s
  }

  /** `s[i..j]` is what is left once only trimmable characters are cut from either end of `s`. */
  predicate TrimmedSlice(s: string, i: int, j: int) {
    0 <= i <= j <= |s| && IsBlank(s[..i]) && IsBlank(s[j..])
  }

  lemma SliceAfterFirst(s: string, i: int, j: int)
    requires s != [] && IsTrimmable(s[0]) && TrimmedSlice(s[1..], i, j)
    ensures TrimmedSlice(s, i + 1, j + 1) && s[1..][i..j] == s[i + 1..j + 1]
  {
  }

  lemma SliceBeforeLast(s: string, i: int, j: int)
    requires s != [] && IsTrimmable(s[|s| - 1]) && TrimmedSlice(s[..|s| - 1], i, j)
    ensures TrimmedSlice(s, i, j) && s[..|s| - 1][i..j] == s[i..j]
  {
  }

  /**
    Together with `Trim`'s own contract this says all `trim()` does: its result is a slice
    of the input with only trimmable characters removed on either side.
   */
  lemma {:induction false} TrimSlice(s: string)
    ensures exists i, j :: TrimmedSlice(s, i, j) && Trim(s) == s[i..j]
    decreases |s|
  {
    if s != [] && IsTrimmable(s[0]) {
      TrimSlice(s[1..]);
      var i, j :| TrimmedSlice(s[1..], i, j) && Trim(s[1..]) == s[1..][i..j];
      SliceAfterFirst(s, i, j);
      assert TrimmedSlice(s, i + 1, j + 1) && Trim(s) == s[i + 1..j + 1];
    } else if s != [] && IsTrimmable(s[|s| - 1]) {
      TrimSlice(s[..|s| - 1]);
      var i, j :| TrimmedSlice(s[..|s| - 1], i, j) && Trim(s[..|s| - 1]) == s[..|s| - 1][i..j];
      SliceBeforeLast(s, i, j);
      assert TrimmedSlice(s, i, j) && Trim(s) == s[i..j];
    } else {
      assert s == s[0..|s|];
      assert TrimmedSlice(s, 0, |s|) && Trim(s) == s[0..|s|];
    }
  }

  /** `s.contains(part)`. */
  predicate Contains(s: string, part: string)
    decreases |s|
  {
    |part| <= |s| && (s[..|part|] == part || (|s| > 0 && Contains(s[1..], part)))
  }

  /** An occurrence of `part` at index `i` is enough for `Contains`. */
  lemma {:induction false} ContainsAt(s: string, part: string, i: nat)
    requires i + |part| <= |s| && s[i..i + |part|] == part
    ensures Contains(s, part)
    decreases i
  {
    if i > 0 && s[..|part|] != part {
      assert s[1..][i - 1..i - 1 + |part|] == part;
      ContainsAt(s[1..], part, i - 1);
    }
  }

  /** `part` occurs in `s` starting at index `i`. */
  predicate OccursAt(s: string, part: string, i: int) {
    0 <= i && i + |part| <= |s| && s[i..i + |part|] == part
  }

  /** `Contains` holds exactly when `part` occurs in `s` at some index. */
  lemma {:induction false} ContainsOccurrence(s: string, part: string)
    ensures Contains(s, part) <==> exists i :: OccursAt(s, part, i)
    decreases |s|
  {
    if Contains(s, part) {
      if s[..|part|] == part {
        assert OccursAt(s, part, 0);
      } else {
        ContainsOccurrence(s[1..], part);
        var i :| OccursAt(s[1..], part, i);
        assert s[i + 1..i + 1 + |part|] == s[1..][i..i + |part|];
        assert OccursAt(s, part, i + 1);
      }
    }
    if exists i :: OccursAt(s, part, i) {
      var i :| OccursAt(s, part, i);
      ContainsAt(s, part, i);
    }
  }

  /** `s.endsWith(suffix)`. */
  predicate EndsWith(s: string, suffix: string) {
    |suffix| <= |s| && s[|s| - |suffix|..] == suffix
  }

  /** `EndsWith` holds exactly when `s` is some string followed by `suffix`. */
  lemma EndsWithConcat(s: string, suffix: string)
    ensures EndsWith(s, suffix) <==> exists p :: s == p + suffix
  {
    if EndsWith(s, suffix) {
      assert s == s[..|s| - |suffix|] + suffix;
    }
    if exists p :: s == p + suffix {
      var p :| s == p + suffix;
      assert s[|p|..] == suffix;
    }
  }

  /** Length of the leading run of non-`\s` characters. */
  function RunLength(s: string): (n: nat)
    ensures n <= |s|
    ensures forall i :: 0 <= i < n ==> !IsSpace(s[i])
    ensures n < |s| ==> IsSpace(s[n])
  {
    if s == [] || IsSpace(s[0]) then 0 else 1 + RunLength(s[1..])
  }

  /**
    The non-empty pieces of `s.split("\\s+")`: the maximal runs of non-`\s` characters,
    in order. (Java's split may in addition yield one leading empty piece; the realm skips
    every blank piece, so leaving the empty ones out changes nothing downstream.)
   */
  function Split(s: string): (r: seq<string>)
    ensures forall k :: 0 <= k < |r| ==> r[k] != [] && NoSpace(r[k])
    decreases |s|
  {
    if s == [] then []
    else if IsSpace(s[0]) then Split(s[1..])
    else
      var n := RunLength(s);
      [s[..n]] + Split(s[n..])
  }

  /** The pieces joined with one space between neighbours. */
  function Join(xs: seq<string>): string {
    if xs == [] then []
    else if |xs| == 1 then xs[0]
    else xs[0] + " " + Join(xs[1..])
  }

  /**
    A space-separated list in canonical form: no leading or trailing whitespace, and every
    whitespace character is a single ' ' followed by a non-whitespace character.
   */
  predicate Canonical(s: string) {
    (s == [] || (!IsSpace(s[0]) && !IsSpace(s[|s| - 1])))
    && forall i :: 0 <= i < |s| && IsSpace(s[i]) ==> s[i] == ' ' && i + 1 < |s| && !IsSpace(s[i + 1])
  }

  /** Pieces that survive a split unchanged: non-empty and free of whitespace. */
  predicate Words(xs: seq<string>) {
    forall k :: 0 <= k < |xs| ==> xs[k] != [] && NoSpace(xs[k])
  }

  lemma RunLengthOfWord(a: string, b: string)
    requires NoSpace(a)
    requires b == [] || IsSpace(b[0])
    ensures RunLength(a + b) == |a|
  {
    var s := a + b;
    assert forall i :: 0 <= i < |a| ==> s[i] == a[i];
    assert b != [] ==> s[|a|] == b[0];
  }

  /** Splitting undoes joining: one piece per word, in order. */
  lemma {:induction false} SplitJoin(xs: seq<string>)
    requires Words(xs)
    ensures Split(Join(xs)) == xs
  {
    if |xs| == 1 {
      var w := xs[0];
      RunLengthOfWord(w, []);
      assert w + [] == w;
      assert w[..|w|] == w && w[|w|..] == [];
    } else if |xs| > 1 {
      var w := xs[0];
      var rest := " " + Join(xs[1..]);
      assert Join(xs) == w + rest;
      RunLengthOfWord(w, rest);
      assert (w + rest)[..|w|] == w;
      assert (w + rest)[|w|..] == rest;
      assert rest[1..] == Join(xs[1..]);
      SplitJoin(xs[1..]);
      assert xs == [w] + xs[1..];
    }
  }

  /** Joining a list of words yields canonical text, empty exactly when the list is. */
  lemma {:induction false} JoinCanonical(xs: seq<string>)
    requires Words(xs)
    ensures Canonical(Join(xs))
    ensures Join(xs) == [] <==> xs == []
  {
    if |xs| > 1 {
      var w := xs[0];
      var j := Join(xs[1..]);
      JoinCanonical(xs[1..]);
      var s := w + " " + j;
      assert Join(xs) == s;
      assert s[0] == w[0];
      assert s[|s| - 1] == j[|j| - 1];
      forall i | 0 <= i < |s|
        ensures IsSpace(s[i]) ==> s[i] == ' ' && i + 1 < |s| && !IsSpace(s[i + 1])
      {
        if i < |w| {
          assert s[i] == w[i];
        } else if i == |w| {
          assert s[i + 1] == j[0];
        } else {
          assert s[i] == j[i - |w| - 1];
          if i + 1 < |s| {
            assert s[i + 1] == j[i - |w|];
          }
        }
      }
    }
  }

  /** Appending one more piece, as a loop that joins left to right does. */
  lemma {:induction false} JoinSnoc(xs: seq<string>, x: string)
    ensures Join(xs + [x]) == if xs == [] then x else Join(xs) + " " + x
  {
    if |xs| == 1 {
      assert (xs + [x])[1..] == [x];
    } else if |xs| > 1 {
      JoinSnoc(xs[1..], x);
      assert (xs + [x])[1..] == xs[1..] + [x];
    }
  }

  /**
    A `\s` character always separates pieces: what lies before it and what lies after it
    are split independently. With `Split([]) == []` and `Split(w) == [w]` for a word `w`
    (`SplitJoin`), this determines the pieces of every string: the maximal runs of
    non-`\s` characters.
   */
  lemma {:induction false} SplitAround(a: string, c: char, b: string)
    requires IsSpace(c)
    ensures Split(a + [c] + b) == Split(a) + Split(b)
    decreases |a|
  {
    var s := a + [c] + b;
    if a == [] {
      assert s == [c] + b && s[1..] == b;
    } else if IsSpace(a[0]) {
      assert s[0] == a[0];
      assert s[1..] == a[1..] + [c] + b;
      SplitAround(a[1..], c, b);
    } else {
      var m := RunLength(a);
      var w := a[..m];
      assert s[0] == a[0];
      if m == |a| {
        assert w == a && a[m..] == [];
        assert s == a + ([c] + b);
        RunLengthOfWord(a, [c] + b);
        assert s[|a|..] == [c] + b;
        assert ([c] + b)[1..] == b;
        assert Split(a) == [a] + Split([]);
      } else {
        var rest := a[m..];
        assert s == w + (rest + [c] + b);
        RunLengthOfWord(w, rest + [c] + b);
        assert s[..m] == w;
        assert s[m..] == rest + [c] + b;
        SplitAround(rest, c, b);
        assert Split(a) == [w] + Split(rest);
      }
    }
  }

  /** A string of trimmable characters splits into blank pieces only. */
  lemma {:induction false} SplitBlank(s: string)
    requires IsBlank(s)
    ensures forall k :: 0 <= k < |Split(s)| ==> IsBlank(Split(s)[k])
    decreases |s|
  {
    if s != [] {
      if IsSpace(s[0]) {
        SplitBlank(s[1..]);
      } else {
        var n := RunLength(s);
        SplitBlank(s[n..]);
      }
    }
  }

  /** The pieces glued together with nothing in between. */
  function Concat(xs: seq<string>): string {
    if xs == [] then [] else xs[0] + Concat(xs[1..])
  }

  /** `s` with every `\s` character deleted. */
  function WithoutSpace(s: string): string {
    if s == [] then [] else (if IsSpace(s[0]) then [] else [s[0]]) + WithoutSpace(s[1..])
  }

  lemma {:induction false} WithoutSpaceAppend(a: string, b: string)
    ensures WithoutSpace(a + b) == WithoutSpace(a) + WithoutSpace(b)
  {
    if a == [] {
      assert a + b == b;
    } else {
      var head := if IsSpace(a[0]) then [] else [a[0]];
      WithoutSpaceAppend(a[1..], b);
      assert (a + b)[0] == a[0];
      assert (a + b)[1..] == a[1..] + b;
      calc {
        WithoutSpace(a + b);
        head + WithoutSpace(a[1..] + b);
        head + (WithoutSpace(a[1..]) + WithoutSpace(b));
        (head + WithoutSpace(a[1..])) + WithoutSpace(b);
      }
    }
  }

  lemma {:induction false} WithoutSpaceOfWord(a: string)
    requires NoSpace(a)
    ensures WithoutSpace(a) == a
  {
    if a != [] {
      WithoutSpaceOfWord(a[1..]);
    }
  }

  /** Splitting loses exactly the `\s` characters: the pieces, glued together, are the rest of `s`. */
  lemma {:induction false} SplitConcat(s: string)
    ensures Concat(Split(s)) == WithoutSpace(s)
    decreases |s|
  {
    if s != [] {
      if IsSpace(s[0]) {
        SplitConcat(s[1..]);
      } else {
        var n := RunLength(s);
        SplitConcat(s[n..]);
        assert s == s[..n] + s[n..];
        WithoutSpaceAppend(s[..n], s[n..]);
        WithoutSpaceOfWord(s[..n]);
        assert ([s[..n]] + Split(s[n..]))[1..] == Split(s[n..]);
      }
    }
  }

  /** Joining the pieces of canonical text gives the text back. */
  lemma {:induction false} JoinSplit(s: string)
    requires Canonical(s)
    ensures Join(Split(s)) == s
    decreases |s|
  {
    if s != [] {
      var n := RunLength(s);
      var w := s[..n];
      if n == |s| {
        assert w == s && s[n..] == [];
        assert Split(s) == [w];
      } else {
        var t := s[n + 1..];
        assert s[n..][1..] == t;
        assert Split(s[n..]) == Split(t);
        assert Canonical(t) by {
          assert t[0] == s[n + 1] && t[|t| - 1] == s[|s| - 1];
          forall i | 0 <= i < |t|
            ensures IsSpace(t[i]) ==> t[i] == ' ' && i + 1 < |t| && !IsSpace(t[i + 1])
          {
            assert t[i] == s[n + 1 + i];
            if i + 1 < |t| {
              assert t[i + 1] == s[n + 2 + i];
            }
          }
        }
        JoinSplit(t);
        assert Split(t) == [t[..RunLength(t)]] + Split(t[RunLength(t)..]);
        var xs := [w] + Split(t);
        assert xs[1..] == Split(t);
        assert Join(xs) == w + " " + t;
        assert s == w + " " + t;
      }
    }
  }
}
