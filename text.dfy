/** Character classes and the string operations the page's derivations chain
    together: split on a character class, trim, and drop empty pieces.
    Strings are sequences of Unicode scalar values. */
module Text {

  type String = seq<char>

  /** The characters ECMAScript calls WhiteSpace or LineTerminator: what
      String.prototype.trim removes and what the regular-expression class \s
      matches (the Zs category is U+0020, U+00A0, U+1680, U+2000-U+200A,
      U+202F, U+205F and U+3000). */
  predicate IsWhitespace(c: char) {
    c == '\t' || c == '\n' || c == '\U{000B}' || c == '\U{000C}' || c == '\r' || c == ' '
    || c == '\U{00A0}' || c == '\U{1680}' || ('\U{2000}' <= c <= '\U{200A}')
    || c == '\U{2028}' || c == '\U{2029}' || c == '\U{202F}' || c == '\U{205F}'
    || c == '\U{3000}' || c == '\U{FEFF}'
  }

  /** The class [–-]: an en dash (U+2013) or an ASCII hyphen-minus. */
  predicate IsDash(c: char) {
    c == '\U{2013}' || c == '-'
  }

  /** \d without the u flag: ASCII digits only. */
  predicate IsDigit(c: char) {
    '0' <= c <= '9'
  }

  /** \w without the u flag: [A-Za-z0-9_]; every other character, accented
      letters included, is a non-word character for \b. */
  predicate IsWordChar(c: char) {
    ('A' <= c <= 'Z') || ('a' <= c <= 'z') || IsDigit(c) || c == '_'
  }

  /** No character of s satisfies p. */
  ghost predicate NoneSatisfy(s: String, p: char -> bool) {
    forall k :: 0 <= k < |s| ==> !p(s[k])
  }

  /** Every character of s satisfies p. */
  ghost predicate AllSatisfy(s: String, p: char -> bool) {
    forall k :: 0 <= k < |s| ==> p(s[k])
  }

  /** The separator characters of s, in order. */
  function Separators(s: String, isSep: char -> bool): (r: String)
    ensures |r| <= |s|
  {
    if s == [] then []
    else if isSep(s[0]) then [s[0]] + Separators(s[1..], isSep)
    else Separators(s[1..], isSep)
  }

  /** Glues pieces back together, putting seps[k] between pieces[k] and
      pieces[k + 1]: the inverse of Split. */
  function Interleave(pieces: seq<String>, seps: String): String
    requires |pieces| == |seps| + 1
  {
    if seps == [] then pieces[0]
    else pieces[0] + [seps[0]] + Interleave(pieces[1..], seps[1..])
  }

  /** String.prototype.split with a one-character class as separator: every
      separator character ends a piece, so there is always one piece more
      than there are separators ("" gives [""], "-" gives ["", ""]). */
  function Split(s: String, isSep: char -> bool): (pieces: seq<String>)
    ensures |pieces| == |Separators(s, isSep)| + 1
  {
    if s == [] then [[]]
    else
      var rest := Split(s[1..], isSep);
      if isSep(s[0]) then [[]] + rest
      else [[s[0]] + rest[0]] + rest[1..]
  }

  /** Split is undone by Interleave, and no piece holds a separator: together
      these determine the pieces. */
  lemma {:induction false} SplitInverse(s: String, isSep: char -> bool)
    ensures Interleave(Split(s, isSep), Separators(s, isSep)) == s
    ensures forall k :: 0 <= k < |Split(s, isSep)| ==> NoneSatisfy(Split(s, isSep)[k], isSep)
    decreases |s|
  {
    if s != [] {
      var c, t := s[0], s[1..];
      assert s == [c] + t;
      SplitInverse(t, isSep);
      if isSep(c) {
        SplitInverseSep(c, t, isSep);
      } else {
        SplitInverseChar(c, t, isSep);
      }
    }
  }

  /** The inductive step of SplitInverse for a leading separator. */
  lemma SplitInverseSep(c: char, t: String, isSep: char -> bool)
    requires isSep(c)
    requires Interleave(Split(t, isSep), Separators(t, isSep)) == t
    requires forall k :: 0 <= k < |Split(t, isSep)| ==> NoneSatisfy(Split(t, isSep)[k], isSep)
    ensures Interleave(Split([c] + t, isSep), Separators([c] + t, isSep)) == [c] + t
    ensures forall k :: 0 <= k < |Split([c] + t, isSep)| ==> NoneSatisfy(Split([c] + t, isSep)[k], isSep)
  {
    var rest, seps := Split(t, isSep), Separators(t, isSep);
    SplitCons(c, t, isSep);
    assert ([c] + t)[0] == c && ([c] + t)[1..] == t;
    assert Separators([c] + t, isSep) == [c] + seps;
    var pieces := [[]] + rest;
    assert pieces[1..] == rest;
    assert Interleave(pieces, [c] + seps) == [] + [c] + Interleave(rest, seps);
    forall k | 0 <= k < |pieces| ensures NoneSatisfy(pieces[k], isSep) {
      if k > 0 { assert pieces[k] == rest[k - 1]; }
    }
  }

  /** The inductive step of SplitInverse for a leading non-separator. */
  lemma SplitInverseChar(c: char, t: String, isSep: char -> bool)
    requires !isSep(c)
    requires Interleave(Split(t, isSep), Separators(t, isSep)) == t
    requires forall k :: 0 <= k < |Split(t, isSep)| ==> NoneSatisfy(Split(t, isSep)[k], isSep)
    ensures Interleave(Split([c] + t, isSep), Separators([c] + t, isSep)) == [c] + t
    ensures forall k :: 0 <= k < |Split([c] + t, isSep)| ==> NoneSatisfy(Split([c] + t, isSep)[k], isSep)
  {
    var rest, seps := Split(t, isSep), Separators(t, isSep);
    SplitCons(c, t, isSep);
    assert ([c] + t)[0] == c && ([c] + t)[1..] == t;
    assert Separators([c] + t, isSep) == seps;
    InterleaveExtendFirst(c, rest, seps);
    var first := [c] + rest[0];
    var pieces := [first] + rest[1..];
    assert NoneSatisfy(rest[0], isSep);
    assert NoneSatisfy(first, isSep) by {
      forall k | 0 <= k < |first| ensures !isSep(first[k]) {
        if k > 0 { assert first[k] == rest[0][k - 1]; }
      }
    }
    forall k | 0 <= k < |pieces| ensures NoneSatisfy(pieces[k], isSep) {
      if k > 0 { assert pieces[k] == rest[k]; }
    }
  }

  lemma InterleaveExtendFirst(c: char, pieces: seq<String>, seps: String)
    requires |pieces| == |seps| + 1
    ensures Interleave([[c] + pieces[0]] + pieces[1..], seps) == [c] + Interleave(pieces, seps)
  {
    var p' := [[c] + pieces[0]] + pieces[1..];
    assert p'[0] == [c] + pieces[0];
    if seps != [] {
      assert p'[1..] == pieces[1..];
      var tail := Interleave(pieces[1..], seps[1..]);
      calc {
        Interleave(p', seps);
        ([c] + pieces[0]) + [seps[0]] + tail;
        [c] + (pieces[0] + [seps[0]] + tail);
        [c] + Interleave(pieces, seps);
      }
    }
  }

  /** A string without separators is a single piece. */
  lemma {:induction false} SplitWithoutSeparator(s: String, isSep: char -> bool)
    requires NoneSatisfy(s, isSep)
    ensures Split(s, isSep) == [s]
    decreases |s|
  {
    if s != [] {
      SplitWithoutSeparator(s[1..], isSep);
      assert [s[0]] + s[1..] == s;
    }
  }

  /** Split one character at a time. */
  lemma SplitCons(c: char, t: String, isSep: char -> bool)
    ensures isSep(c) ==> Split([c] + t, isSep) == [[]] + Split(t, isSep)
    ensures !isSep(c) ==> Split([c] + t, isSep) == [[c] + Split(t, isSep)[0]] + Split(t, isSep)[1..]
  {
    assert ([c] + t)[0] == c && ([c] + t)[1..] == t;
  }

  lemma ConsAppend(h: String, r: seq<String>, t: seq<String>)
    ensures [h] + (r + t) == ([h] + r) + t
  {
  }

  /** Extending the first piece commutes with appending further pieces. */
  lemma ExtendFirstAppend(h: String, r: seq<String>, t: seq<String>)
    requires r != []
    ensures [h + (r + t)[0]] + (r + t)[1..] == ([h + r[0]] + r[1..]) + t
  {
    assert (r + t)[0] == r[0];
    assert (r + t)[1..] == r[1..] + t;
  }

  /** A separator in front starts a new first piece. */
  lemma SplitSepKeepsTail(c: char, w: String, x: String, tail: seq<String>, isSep: char -> bool)
    requires Split(w, isSep) == Split(x, isSep) + tail && isSep(c)
    ensures Split([c] + w, isSep) == Split([c] + x, isSep) + tail
  {
    SplitCons(c, w, isSep);
    SplitCons(c, x, isSep);
    ConsAppend([], Split(x, isSep), tail);
  }

  /** Any other character in front extends the first piece. */
  lemma SplitCharKeepsTail(c: char, w: String, x: String, tail: seq<String>, isSep: char -> bool)
    requires Split(w, isSep) == Split(x, isSep) + tail && !isSep(c)
    ensures Split([c] + w, isSep) == Split([c] + x, isSep) + tail
  {
    SplitCons(c, w, isSep);
    SplitCons(c, x, isSep);
    ExtendFirstAppend([c], Split(x, isSep), tail);
  }

  /** A separator between x and y splits exactly there. */
  lemma {:induction false} SplitAtSeparator(x: String, c: char, y: String, isSep: char -> bool)
    requires isSep(c)
    ensures Split(x + [c] + y, isSep) == Split(x, isSep) + Split(y, isSep)
    decreases |x|
  {
    if x == [] {
      assert x + [c] + y == [c] + y;
      SplitCons(c, y, isSep);
    } else {
      var x0, x' := x[0], x[1..];
      assert x == [x0] + x';
      assert x + [c] + y == [x0] + (x' + [c] + y);
      SplitAtSeparator(x', c, y, isSep);
      if isSep(x0) {
        SplitSepKeepsTail(x0, x' + [c] + y, x', Split(y, isSep), isSep);
      } else {
        SplitCharKeepsTail(x0, x' + [c] + y, x', Split(y, isSep), isSep);
      }
    }
  }

  /** Every piece is the empty string. */
  ghost predicate AllEmpty(pieces: seq<String>) {
    forall k :: 0 <= k < |pieces| ==> pieces[k] == []
  }

  /** Every piece is empty exactly when every character is a separator. */
  lemma {:induction false} SplitAllEmpty(s: String, isSep: char -> bool)
    ensures AllEmpty(Split(s, isSep)) <==> AllSatisfy(s, isSep)
    decreases |s|
  {
    if s != [] {
      SplitAllEmpty(s[1..], isSep);
      var rest := Split(s[1..], isSep);
      if isSep(s[0]) {
        var pieces := Split(s, isSep);
        assert pieces == [[]] + rest;
        assert AllSatisfy(s, isSep) <==> AllSatisfy(s[1..], isSep) by {
          if AllSatisfy(s[1..], isSep) {
            forall k | 0 <= k < |s| ensures isSep(s[k]) {
              if k > 0 { assert s[k] == s[1..][k - 1]; }
            }
          }
        }
        assert AllEmpty(pieces) <==> AllEmpty(rest) by {
          if AllEmpty(rest) {
            forall k | 0 <= k < |pieces| ensures pieces[k] == [] {
              if k > 0 { assert pieces[k] == rest[k - 1]; }
            }
          }
          if AllEmpty(pieces) {
            forall k | 0 <= k < |rest| ensures rest[k] == [] {
              assert pieces[k + 1] == rest[k];
            }
          }
        }
      } else {
        assert Split(s, isSep)[0] != [];
      }
    }
  }

  /** The index of the first non-whitespace character at or after lo, or
      |s| when there is none. */
  function SkipWhitespace(s: String, lo: nat): (a: nat)
    requires lo <= |s|
    ensures lo <= a <= |s| && forall k :: lo <= k < a ==> IsWhitespace(s[k])
    ensures a == |s| || !IsWhitespace(s[a])
    decreases |s| - lo
  {
    if lo < |s| && IsWhitespace(s[lo]) then SkipWhitespace(s, lo + 1) else lo
  }

  /** The end of s[lo..hi] once its trailing whitespace is dropped. */
  function SkipWhitespaceBack(s: String, lo: nat, hi: nat): (b: nat)
    requires lo <= hi <= |s|
    ensures lo <= b <= hi && forall k :: b <= k < hi ==> IsWhitespace(s[k])
    ensures b == lo || !IsWhitespace(s[b - 1])
    decreases hi
  {
    if lo < hi && IsWhitespace(s[hi - 1]) then SkipWhitespaceBack(s, lo, hi - 1) else hi
  }

  /** String.prototype.trim: the result begins and ends with a
      non-whitespace character unless it is empty. */
  function Trim(s: String): (r: String)
    ensures r == [] || (!IsWhitespace(r[0]) && !IsWhitespace(r[|r| - 1]))
  {
    var a := SkipWhitespace(s, 0);
    s[a..SkipWhitespaceBack(s, a, |s|)]
  }

  /** What Trim removes: the result is the part of s between a whitespace
      run at its start and one at its end. */
  lemma TrimSpec(s: String)
    ensures exists a, b ::
      && 0 <= a <= b <= |s| && Trim(s) == s[a..b]
      && AllSatisfy(s[..a], IsWhitespace) && AllSatisfy(s[b..], IsWhitespace)
  {
    var a := SkipWhitespace(s, 0);
    var b := SkipWhitespaceBack(s, a, |s|);
    assert AllSatisfy(s[..a], IsWhitespace) by {
      forall k | 0 <= k < a ensures IsWhitespace(s[..a][k]) {
        assert s[..a][k] == s[k];
      }
    }
    assert AllSatisfy(s[b..], IsWhitespace) by {
      forall k | 0 <= k < |s| - b ensures IsWhitespace(s[b..][k]) {
        assert s[b..][k] == s[b + k];
      }
    }
  }

  /** Trim never removes a non-whitespace character, so the empty result
      arises exactly from all-whitespace input. */
  lemma TrimEmpty(s: String)
    ensures Trim(s) == [] <==> AllSatisfy(s, IsWhitespace)
  {
    var a := SkipWhitespace(s, 0);
    var b := SkipWhitespaceBack(s, a, |s|);
    if Trim(s) == [] {
      assert a == b;
      assert a == |s|;
    }
  }

  /** A string that begins and ends with non-whitespace is its own trim. */
  lemma TrimTight(s: String)
    requires s != [] && !IsWhitespace(s[0]) && !IsWhitespace(s[|s| - 1])
    ensures Trim(s) == s
  {
    assert SkipWhitespace(s, 0) == 0;
    assert SkipWhitespaceBack(s, 0, |s|) == |s|;
  }

  /** Array.prototype.map over a list of strings. */
  function MapAll(pieces: seq<String>, f: String -> String): (r: seq<String>)
    ensures |r| == |pieces| && forall k :: 0 <= k < |r| ==> r[k] == f(pieces[k])
  {
    if pieces == [] then [] else [f(pieces[0])] + MapAll(pieces[1..], f)
  }

  lemma {:induction false} MapAllAppend(x: seq<String>, y: seq<String>, f: String -> String)
    ensures MapAll(x + y, f) == MapAll(x, f) + MapAll(y, f)
  {
    var whole, mx, my := MapAll(x + y, f), MapAll(x, f), MapAll(y, f);
    assert |whole| == |mx + my|;
    forall k | 0 <= k < |whole| ensures whole[k] == (mx + my)[k] {
      if k < |x| {
        assert (x + y)[k] == x[k] && (mx + my)[k] == mx[k];
      } else {
        assert (x + y)[k] == y[k - |x|] && (mx + my)[k] == my[k - |x|];
      }
    }
  }

  /** Array.prototype.filter(Boolean) on strings: keeps the non-empty pieces
      in their order. */
  function NonEmpty(pieces: seq<String>): (r: seq<String>)
    ensures |r| <= |pieces|
    ensures forall k :: 0 <= k < |r| ==> r[k] != []
    ensures forall p :: p in r <==> p in pieces && p != []
  {
    if pieces == [] then []
    else if pieces[0] == [] then NonEmpty(pieces[1..])
    else [pieces[0]] + NonEmpty(pieces[1..])
  }

  lemma {:induction false} NonEmptyAppend(x: seq<String>, y: seq<String>)
    ensures NonEmpty(x + y) == NonEmpty(x) + NonEmpty(y)
    decreases |x|
  {
    if x != [] {
      assert (x + y)[1..] == x[1..] + y;
      NonEmptyAppend(x[1..], y);
    } else {
      assert x + y == y;
    }
  }

  /** Every piece being empty is what makes the filter drop everything. */
  lemma NonEmptyNone(pieces: seq<String>)
    ensures NonEmpty(pieces) == [] <==> AllEmpty(pieces)
  {
    if NonEmpty(pieces) == [] {
      forall k | 0 <= k < |pieces| ensures pieces[k] == [] {
        assert pieces[k] in pieces;
      }
    }
  }
}
