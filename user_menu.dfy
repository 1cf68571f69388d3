/** `getInitials` of components/user-menu.tsx: the upper-cased first letters
    of the space-separated words of a name, at most two of them. */
module UserMenu {
  import opened Wrappers
  import opened Text

  /** `s.split(sep)`: the pieces between separators, empty pieces included
      (so `"".split(" ")` is `[""]` and a double space yields an empty piece). */
  function Split(s: string, sep: char): (r: seq<string>)
    ensures |r| >= 1
  {
    if s == [] then [[]]
    else
      var rest := Split(s[1..], sep);
      if s[0] == sep then [[]] + rest else [[s[0]] + rest[0]] + rest[1..]
  }

  /** `.map(n => n[0]).join("")`: an empty piece gives `undefined`, which
      `join` writes as nothing. */
  function FirstLetters(pieces: seq<string>): string {
    if pieces == [] then []
    else (if pieces[0] == [] then [] else [pieces[0][0]]) + FirstLetters(pieces[1..])
  }

  /** Reference definition: the characters that start a word, i.e. a
      non-space at the start of the name or right after a space. */
  function WordStarts(s: string, afterSpace: bool): string {
    if s == [] then []
    else (if s[0] != ' ' && afterSpace then [s[0]] else []) + WordStarts(s[1..], s[0] == ' ')
  }

  /** Splitting on spaces and taking first letters picks exactly the word starts. */
  lemma {:induction false} FirstLettersAreWordStarts(s: string)
    ensures FirstLetters(Split(s, ' ')) == WordStarts(s, true)
    ensures FirstLetters(Split(s, ' ')[1..]) == WordStarts(s, false)
  {
    if s != [] {
      FirstLettersAreWordStarts(s[1..]);
      var rest := Split(s[1..], ' ');
      if s[0] == ' ' {
        assert Split(s, ' ') == [[]] + rest;
        assert Split(s, ' ')[1..] == rest;
      } else {
        assert Split(s, ' ') == [[s[0]] + rest[0]] + rest[1..];
        assert Split(s, ' ')[1..] == rest[1..];
      }
    }
  }

  function Take(s: string, n: nat): (r: string)
    ensures |r| == if |s| < n then |s| else n
    ensures r == s[..|r|]
  {
    if |s| <= n then s else s[..n]
  }

  /** `getInitials(name)` with `"U"` for a missing or empty name. */
  function GetInitials(name: Option<string>): (r: string)
    ensures |r| <= 2
    ensures (name.None? || name.value == "") ==> r == "U"
    ensures name.Some? && name.value != "" ==> r == Take(ToUpper(WordStarts(name.value, true)), 2)
  {
    if name.None? || name.value == "" then "U"
    else
      FirstLettersAreWordStarts(name.value);
      Take(ToUpper(FirstLetters(Split(name.value, ' '))), 2)
  }

  lemma {:induction false} WordStartsNoSpace(s: string, afterSpace: bool)
    requires forall i :: 0 <= i < |s| ==> s[i] != ' '
    ensures WordStarts(s, afterSpace) == if s != [] && afterSpace then [s[0]] else []
  {
    if s != [] {
      WordStartsNoSpace(s[1..], false);
    }
  }

  lemma {:induction false} WordStartsAllSpaces(s: string, afterSpace: bool)
    requires forall i :: 0 <= i < |s| ==> s[i] == ' '
    ensures WordStarts(s, afterSpace) == []
  {
    if s != [] {
      WordStartsAllSpaces(s[1..], true);
    }
  }

  /** A one-word name gives its single upper-cased first letter; a name made
      only of spaces is not empty, so it gives no letter at all (not "U"). */
  lemma InitialsOfOneWord(name: string)
    ensures name != [] && (forall i :: 0 <= i < |name| ==> name[i] != ' ') ==>
      GetInitials(Some(name)) == [UpperAscii(name[0])]
    ensures name != [] && (forall i :: 0 <= i < |name| ==> name[i] == ' ') ==>
      GetInitials(Some(name)) == []
  {
    if name != [] && (forall i :: 0 <= i < |name| ==> name[i] != ' ') {
      WordStartsNoSpace(name, true);
    }
    if name != [] && (forall i :: 0 <= i < |name| ==> name[i] == ' ') {
      WordStartsAllSpaces(name, true);
    }
  }

  /** The empty piece between two spaces contributes nothing. */
  lemma InitialsSkipEmptyPieces()
    ensures GetInitials(Some("a  b")) == "AB"
  {
    assert "a  b"[1..] == "  b" && "  b"[1..] == " b" && " b"[1..] == "b";
    assert WordStarts("b", true) == "b";
    assert WordStarts("a  b", true) == "ab";
  }

  /** A leading space opens an empty first piece, which is skipped. */
  lemma InitialsSkipLeadingSpace()
    ensures GetInitials(Some(" li")) == "L"
  {
    assert " li"[1..] == "li";
    assert WordStarts(" li", true) == "l";
  }
}
