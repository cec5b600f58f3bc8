/** profileInitials: the letters shown in place of the profile photo. */
module Initials {
  import opened Text

  /** String.prototype.toUpperCase on one character, for Basic Latin and
      Latin-1: a-z and the Latin-1 small letters map to their capitals,
      'ß' to "SS", 'ÿ' to 'Ÿ' and the micro sign to Greek capital mu; every
      other character is its own upper case. */
  function UpperCase(c: char): (r: String)
    ensures 1 <= |r| <= 2
  {
    if 'a' <= c <= 'z' then [(c as int - 32) as char]
    else if c == '\U{00DF}' then "SS"
    else if c == '\U{00FF}' then ['\U{0178}']
    else if c == '\U{00B5}' then ['\U{039C}']
    else if '\U{00E0}' <= c <= '\U{00FE}' && c != '\U{00F7}' then [(c as int - 32) as char]
    else [c]
  }

  /** name.split(/\s+/).filter(Boolean): the maximal runs of non-whitespace.
      Splitting at every whitespace character and dropping the empty pieces
      gives the same words as splitting at whitespace runs. */
  function Words(name: String): (words: seq<String>)
    ensures forall k :: 0 <= k < |words| ==> words[k] != [] && NoneSatisfy(words[k], IsWhitespace)
  {
    SplitInverse(name, IsWhitespace);
    var pieces := Split(name, IsWhitespace);
    var words := NonEmpty(pieces);
    assert forall k :: 0 <= k < |words| ==> words[k] in pieces;
    words
  }

  /** Whitespace separates words: the words of x c y are those of x
      followed by those of y. */
  lemma WordsAtWhitespace(x: String, c: char, y: String)
    requires IsWhitespace(c)
    ensures Words(x + [c] + y) == Words(x) + Words(y)
  {
    SplitAtSeparator(x, c, y, IsWhitespace);
    NonEmptyAppend(Split(x, IsWhitespace), Split(y, IsWhitespace));
  }

  /** A non-empty run without whitespace is a single word. */
  lemma WordsOfWord(w: String)
    requires w != [] && NoneSatisfy(w, IsWhitespace)
    ensures Words(w) == [w]
  {
    SplitWithoutSeparator(w, IsWhitespace);
    assert NonEmpty([w]) == [w];
  }

  /** There are no words exactly in an empty or all-whitespace name. */
  lemma WordsEmpty(s: String)
    ensures Words(s) == [] <==> AllSatisfy(s, IsWhitespace)
  {
    SplitAllEmpty(s, IsWhitespace);
    NonEmptyNone(Split(s, IsWhitespace));
  }

  /** part[0]?.toUpperCase() ?? "": empty only for the empty word. */
  function Initial(word: String): (r: String)
    ensures r == [] <==> word == []
  {
    if word == [] then [] else UpperCase(word[0])
  }

  /** Array.prototype.join(""): empty exactly when every part is. */
  function Concat(parts: seq<String>): (r: String)
    ensures r == [] <==> AllEmpty(parts)
  {
    if parts == [] then []
    else
      var rest := Concat(parts[1..]);
      assert AllEmpty(parts) <==> parts[0] == [] && AllEmpty(parts[1..]) by {
        if parts[0] == [] && AllEmpty(parts[1..]) {
          forall k | 0 <= k < |parts| ensures parts[k] == [] {
            if k > 0 { assert parts[k] == parts[1..][k - 1]; }
          }
        }
      }
      parts[0] + rest
  }

  /** The initials of all words, joined, cut to at most two characters. */
  function ProfileInitials(name: String): (r: String)
    ensures |r| <= 2
    ensures r <= Concat(MapAll(Words(name), Initial))
    ensures |r| == 2 || r == Concat(MapAll(Words(name), Initial))
  {
    var all := Concat(MapAll(Words(name), Initial));
    if |all| <= 2 then all else all[..2]
  }

  /** The initials are empty exactly for an empty or whitespace-only name. */
  lemma InitialsEmpty(name: String)
    ensures ProfileInitials(name) == [] <==> AllSatisfy(name, IsWhitespace)
  {
    var pieces := Split(name, IsWhitespace);
    SplitAllEmpty(name, IsWhitespace);
    NonEmptyNone(pieces);
    var words := Words(name);
    assert words == NonEmpty(pieces);
    if words != [] {
      var parts := MapAll(words, Initial);
      assert parts[0] == UpperCase(words[0][0]);
      assert Concat(parts) == parts[0] + Concat(parts[1..]);
      assert |Concat(parts)| >= 1;
      assert ProfileInitials(name) != [];
      assert !AllEmpty(pieces);
    }
  }

  /** The first two words give the initials when each starts with a
      character whose capital is one character; a single word gives its own
      initial. */
  lemma InitialsOfWords(name: String)
    ensures var w := Words(name);
      |w| >= 2 && |Initial(w[0])| == 1 && |Initial(w[1])| == 1 ==> ProfileInitials(name) == Initial(w[0]) + Initial(w[1])
    ensures var w := Words(name);
      |w| == 1 ==> ProfileInitials(name) == Initial(w[0])
  {
    var w := Words(name);
    var parts := MapAll(w, Initial);
    if |w| >= 2 {
      assert parts[1..][0] == parts[1];
      assert Concat(parts) == parts[0] + (parts[1] + Concat(parts[2..])) by {
        assert parts[1..][1..] == parts[2..];
      }
      if |Initial(w[0])| == 1 && |Initial(w[1])| == 1 {
        assert (parts[0] + (parts[1] + Concat(parts[2..])))[..2] == parts[0] + parts[1];
      }
    } else if |w| == 1 {
      assert Concat(parts) == parts[0] + Concat(parts[1..]);
      assert parts[1..] == [];
    }
  }

  /** Three words separated by single spaces. */
  lemma ThreeWords(a: String, b: String, c: String)
    requires a != [] && b != [] && c != []
    requires NoneSatisfy(a, IsWhitespace) && NoneSatisfy(b, IsWhitespace) && NoneSatisfy(c, IsWhitespace)
    ensures Words(a + [' '] + b + [' '] + c) == [a, b, c]
  {
    var tail := b + [' '] + c;
    assert a + [' '] + b + [' '] + c == a + [' '] + tail;
    WordsAtWhitespace(a, ' ', tail);
    WordsAtWhitespace(b, ' ', c);
    WordsOfWord(a);
    WordsOfWord(b);
    WordsOfWord(c);
  }

  /** Three words whose first letters have one-character capitals give
      those two capitals. */
  lemma InitialsOfThree(a: String, b: String, c: String)
    requires a != [] && b != [] && c != []
    requires NoneSatisfy(a, IsWhitespace) && NoneSatisfy(b, IsWhitespace) && NoneSatisfy(c, IsWhitespace)
    requires |Initial(a)| == 1 && |Initial(b)| == 1
    ensures ProfileInitials(a + [' '] + b + [' '] + c) == Initial(a) + Initial(b)
  {
    ThreeWords(a, b, c);
    InitialsOfWords(a + [' '] + b + [' '] + c);
  }

  /** The shipped profile name gives "DM". */
  lemma ProfileNameInitials(name: String)
    requires name == "Daniel Machado Pintos"
    ensures ProfileInitials(name) == "DM"
  {
    var a, b, c := "Daniel", "Machado", "Pintos";
    assert name == a + [' '] + b + [' '] + c;
    assert Initial(a) == "D" && Initial(b) == "M";
    InitialsOfThree(a, b, c);
  }
}
