/** The JavaScript string operations the application relies on, over
    strings taken as sequences of characters: `trim`, `split` on one
    character, `toLowerCase`, `includes` and `startsWith`. Whitespace and
    case are the ASCII ones. */
module JsString {

  /** The ASCII characters `String.prototype.trim` removes. */
  predicate IsWhitespace(c: char)
  {
    c == ' ' || c == '\t' || c == '\n' || c == '\r' || c == '\U{000B}' || c == '\U{000C}'
  }

  /** Whitespace only: what `s.trim()` leaves empty (the third
      postcondition of `Trim` states the equivalence). */
  predicate Blank(s: string)
  {
    forall k :: 0 <= k < |s| ==> IsWhitespace(s[k])
  }

  /** No whitespace at either end. */
  predicate IsTrimmed(s: string)
  {
    s == [] || (!IsWhitespace(s[0]) && !IsWhitespace(s[|s| - 1]))
  }

  function TrimStart(s: string): (r: string)
    ensures |r| <= |s| && r == s[|s| - |r|..]
    ensures r == [] || !IsWhitespace(r[0])
    ensures forall k :: 0 <= k < |s| - |r| ==> IsWhitespace(s[k])
  {
    if s != [] && IsWhitespace(s[0]) then TrimStart(s[1..]) else s
  }

  function TrimEnd(s: string): (r: string)
    ensures |r| <= |s| && r == s[..|r|]
    ensures r == [] || !IsWhitespace(r[|r| - 1])
    ensures forall k :: |r| <= k < |s| ==> IsWhitespace(s[k])
  {
    if s != [] && IsWhitespace(s[|s| - 1]) then TrimEnd(s[..|s| - 1]) else s
  }

  /** `s.trim()`: the longest slice of `s` with no whitespace at either end
      and only whitespace cut off; empty exactly when `s` is all whitespace. */
  function Trim(s: string): (r: string)
    ensures IsTrimmed(r)
    ensures forall k :: 0 <= k < |r| ==> r[k] in s
    ensures r == [] <==> Blank(s)
  {
    TrimOfTrimStart(s);
    TrimEnd(TrimStart(s))
  }

  /** `r` is the slice of `s` at `i`, with only whitespace before and
      after it. */
  predicate BetweenBlanks(s: string, r: string, i: nat)
  {
    i + |r| <= |s| && r == s[i..i + |r|] && Blank(s[..i]) && Blank(s[i + |r|..])
  }

  /** `trim` cuts whitespace off the two ends and nothing else: the result
      is the slice of `s` between a blank prefix and a blank suffix. */
  lemma TrimIsSlice(s: string)
    ensures exists i: nat :: BetweenBlanks(s, Trim(s), i)
  {
    var t := TrimStart(s);
    var r := TrimEnd(t);
    TrimStartCutsBlank(s);
    TrimEndCutsBlank(t);
    SliceBetween(s, t, r);
    assert Trim(s) == r;
  }

  /** A prefix cut from a suffix, with blanks cut off on both sides, lies
      between blanks. */
  lemma SliceBetween(s: string, t: string, r: string)
    requires |t| <= |s| && t == s[|s| - |t|..] && Blank(s[..|s| - |t|])
    requires |r| <= |t| && r == t[..|r|] && Blank(t[|r|..])
    ensures BetweenBlanks(s, r, |s| - |t|)
  {
    assert t[|r|..] == s[|s| - |t| + |r|..];
  }

  /** What `TrimStart` removes is blank. */
  lemma TrimStartCutsBlank(s: string)
    ensures Blank(s[..|s| - |TrimStart(s)|])
  {
    var p := s[..|s| - |TrimStart(s)|];
    forall k | 0 <= k < |p| ensures IsWhitespace(p[k]) {
      assert p[k] == s[k];
    }
  }

  /** What `TrimEnd` removes is blank. */
  lemma TrimEndCutsBlank(t: string)
    ensures Blank(t[|TrimEnd(t)|..])
  {
    var u := t[|TrimEnd(t)|..];
    forall k | 0 <= k < |u| ensures IsWhitespace(u[k]) {
      assert u[k] == t[|TrimEnd(t)| + k];
    }
  }

  lemma TrimOfTrimStart(s: string)
    ensures var t := TrimStart(s);
            var r := TrimEnd(t);
            && (forall k :: 0 <= k < |r| ==> r[k] in s)
            && (r == [] <==> forall k :: 0 <= k < |s| ==> IsWhitespace(s[k]))
  {
    var t := TrimStart(s);
    var r := TrimEnd(t);
    TrimStartCutsBlank(s);
    TrimEndCutsBlank(t);
    SliceBetween(s, t, r);
    TrimmedSlice(s, r, |s| - |t|);
  }

  /** A slice between blanks that does not end in whitespace draws its
      characters from `s`, and is empty exactly when `s` is blank. */
  lemma TrimmedSlice(s: string, r: string, i: nat)
    requires BetweenBlanks(s, r, i)
    requires r == [] || !IsWhitespace(r[|r| - 1])
    ensures forall k :: 0 <= k < |r| ==> r[k] in s
    ensures r == [] <==> Blank(s)
  {
    forall k | 0 <= k < |r| ensures r[k] in s {
      assert r[k] == s[i + k];
    }
    if r == [] {
      forall k | 0 <= k < |s| ensures IsWhitespace(s[k]) {
        if k < i {
          assert s[k] == s[..i][k];
        } else {
          assert s[k] == s[i..][k - i];
        }
      }
    } else {
      assert r[|r| - 1] == s[i + |r| - 1];
    }
  }

  /** `s.startsWith(p)`: the first `|p|` characters of `s` are those of
      `p`. */
  predicate StartsWith(s: string, p: string)
    ensures StartsWith(s, p) <==> |p| <= |s| && s[..|p|] == p
  {
    p <= s
  }

  /** `w` occurs in `s` at position `i`. */
  predicate OccursAt(s: string, w: string, i: int)
  {
    0 <= i && i + |w| <= |s| && s[i..i + |w|] == w
  }

  /** `s.includes(w)`: `w` occurs somewhere in `s`. */
  predicate Contains(s: string, w: string)
    ensures Contains(s, w) <==> exists i :: OccursAt(s, w, i)
  {
    if w <= s then
      assert OccursAt(s, w, 0);
      true
    else if s == [] then
      false
    else
      ContainsShift(s, w);
      Contains(s[1..], w)
  }

  /** Past a non-match at the front, the occurrences of `w` in `s` are those
      in the tail, one position further on. */
  lemma ContainsShift(s: string, w: string)
    requires s != [] && !(w <= s)
    ensures (exists i :: OccursAt(s, w, i)) <==> (exists i :: OccursAt(s[1..], w, i))
  {
    if exists i :: OccursAt(s, w, i) {
      var i :| OccursAt(s, w, i);
      assert i != 0;
      assert s[1..][i - 1..i - 1 + |w|] == s[i..i + |w|];
      assert OccursAt(s[1..], w, i - 1);
    }
    if exists i :: OccursAt(s[1..], w, i) {
      var i :| OccursAt(s[1..], w, i);
      assert s[i + 1..i + 1 + |w|] == s[1..][i..i + |w|];
      assert OccursAt(s, w, i + 1);
    }
  }

  function ToLowerChar(c: char): char
  {
    if 'A' <= c <= 'Z' then (c as int + 32) as char else c
  }

  /** `s.toLowerCase()`, ASCII letters only. */
  function ToLower(s: string): (r: string)
    ensures |r| == |s|
    ensures forall k :: 0 <= k < |s| ==> r[k] == ToLowerChar(s[k])
  {
    if s == [] then [] else [ToLowerChar(s[0])] + ToLower(s[1..])
  }

  /** The inverse of `Split`: the pieces glued back with `sep` between them. */
  function Join(pieces: seq<string>, sep: char): string
    requires |pieces| >= 1
  {
    if |pieces| == 1 then pieces[0] else pieces[0] + [sep] + Join(pieces[1..], sep)
  }

  /** `s.split(sep)` for a one-character separator: at least one piece,
      no piece holds the separator, and joining the pieces gives `s` back. */
  function Split(s: string, sep: char): (r: seq<string>)
    ensures |r| >= 1
    ensures forall k :: 0 <= k < |r| ==> sep !in r[k]
    ensures Join(r, sep) == s
  {
    if s == [] then
      [[]]
    else if s[0] == sep then
      var rest := Split(s[1..], sep);
      assert [sep] + Join(rest, sep) == s;
      [[]] + rest
    else
      var rest := Split(s[1..], sep);
      var r := [[s[0]] + rest[0]] + rest[1..];
      assert r[1..] == rest[1..];
      assert Join(r, sep) == [s[0]] + Join(rest, sep);
      r
  }

  /** Splitting a string whose first piece is `a` yields `a` first and the
      pieces of what follows the separator. */
  lemma {:induction false} SplitAfterPiece(a: string, sep: char, b: string)
    requires sep !in a
    ensures Split(a + [sep] + b, sep) == [a] + Split(b, sep)
  {
    var s := a + [sep] + b;
    if a == [] {
      assert s == [sep] + b;
      SplitStep(s, sep);
      assert s[1..] == b;
    } else {
      var t := a[1..] + [sep] + b;
      SplitAfterPiece(a[1..], sep, b);
      var rest := Split(t, sep);
      assert rest[0] == a[1..] && rest[1..] == Split(b, sep);
      assert s[1..] == t;
      assert s[0] == a[0] != sep;
      SplitStep(s, sep);
      assert [a[0]] + a[1..] == a;
    }
  }

  /** One step of `split`: a leading separator closes an empty piece, any
      other leading character opens the first piece. */
  lemma SplitStep(s: string, sep: char)
    requires s != []
    ensures s[0] == sep ==> Split(s, sep) == [[]] + Split(s[1..], sep)
    ensures s[0] != sep ==>
      var rest := Split(s[1..], sep);
      Split(s, sep) == [[s[0]] + rest[0]] + rest[1..]
  {
  }

  /** A string without the separator is one piece. */
  lemma {:induction false} SplitWithoutSep(a: string, sep: char)
    requires sep !in a
    ensures Split(a, sep) == [a]
  {
    if a != [] {
      SplitWithoutSep(a[1..], sep);
      assert [a[0]] + a[1..] == a;
    }
  }

  /** `split` yields more than one piece exactly when the separator occurs. */
  lemma SplitCountsSeparators(s: string, sep: char)
    ensures |Split(s, sep)| > 1 <==> sep in s
  {
    if sep !in s {
      SplitWithoutSep(s, sep);
    }
  }

  /** The join of four or more pieces opens with the first three, each
      followed by the separator. */
  lemma JoinOpening(pieces: seq<string>, sep: char)
    requires |pieces| >= 4
    ensures Join(pieces, sep)
            == pieces[0] + [sep] + pieces[1] + [sep] + pieces[2] + [sep] + Join(pieces[3..], sep)
  {
    var rest := Join(pieces[3..], sep);
    assert Join(pieces[2..], sep) == pieces[2] + [sep] + rest by {
      assert pieces[2..][1..] == pieces[3..];
    }
    assert Join(pieces[1..], sep) == pieces[1] + [sep] + Join(pieces[2..], sep) by {
      assert pieces[1..][1..] == pieces[2..];
    }
  }

  /** In the join of two or more pieces, the second piece starts right after
      the first separator and ends at the next separator or at the end. */
  lemma JoinSecondPiece(pieces: seq<string>, sep: char)
    requires |pieces| >= 2
    ensures var s, i := Join(pieces, sep), |pieces[0]|;
      && i + 1 + |pieces[1]| <= |s|
      && s[..i] == pieces[0] && s[i] == sep
      && s[i + 1..i + 1 + |pieces[1]|] == pieces[1]
      && (i + 1 + |pieces[1]| == |s| || s[i + 1 + |pieces[1]|] == sep)
  {
    var tail := Join(pieces[1..], sep);
    assert Join(pieces, sep) == pieces[0] + [sep] + tail;
    if |pieces| > 2 {
      assert pieces[1..][1..] == pieces[2..];
      assert tail == pieces[1] + [sep] + Join(pieces[2..], sep);
    }
  }

  /** Round trip in the other direction: pieces free of the separator are
      recovered by splitting their join. */
  lemma {:induction false} SplitJoin(pieces: seq<string>, sep: char)
    requires |pieces| >= 1
    requires forall k :: 0 <= k < |pieces| ==> sep !in pieces[k]
    ensures Split(Join(pieces, sep), sep) == pieces
  {
    if |pieces| == 1 {
      SplitWithoutSep(pieces[0], sep);
    } else {
      SplitJoin(pieces[1..], sep);
      SplitAfterPiece(pieces[0], sep, Join(pieces[1..], sep));
      assert [pieces[0]] + pieces[1..] == pieces;
    }
  }
}
