/** `getFieldImage` of the field-availability page: which of the four field
    pictures to show, chosen from a normalised field type and the field's
    position in the list. */
module FieldImage {
  import opened Wrappers
  import opened Text

  /** Removal of the accent of the accented Latin letters of Spanish (and a
      few neighbours), as NFD decomposition followed by the removal of the
      combining marks does; every other character is kept. */
  function StripAccent(c: char): char {
    if c < '\U{C0}' then c
    else if c in "áàâäã" then 'a' else if c in "ÁÀÂÄÃ" then 'A'
    else if c in "éèêë" then 'e' else if c in "ÉÈÊË" then 'E'
    else if c in "íìîï" then 'i' else if c in "ÍÌÎÏ" then 'I'
    else if c in "óòôöõ" then 'o' else if c in "ÓÒÔÖÕ" then 'O'
    else if c in "úùûü" then 'u' else if c in "ÚÙÛÜ" then 'U'
    else if c == 'ñ' then 'n' else if c == 'Ñ' then 'N'
    else if c == 'ç' then 'c' else if c == 'Ç' then 'C'
    else c
  }

  predicate IsKeyChar(c: char) {
    'a' <= c <= 'z' || '0' <= c <= '9'
  }

  /** The normalised key: accents stripped, lower-cased, and everything
      outside `[a-z0-9]` removed. */
  function NormalizeKey(s: string): (k: string)
    ensures forall i :: 0 <= i < |k| ==> IsKeyChar(k[i])
    ensures |k| <= |s|
  {
    if s == [] then []
    else
      var c := LowerAscii(StripAccent(s[0]));
      (if IsKeyChar(c) then [c] else []) + NormalizeKey(s[1..])
  }

  /** A key character survives normalisation unchanged. */
  lemma KeyCharFixed(c: char)
    requires IsKeyChar(c)
    ensures LowerAscii(StripAccent(c)) == c
  {
  }

  /** Normalising a key changes nothing. */
  lemma {:induction false} NormalizeKeyIdempotent(s: string)
    ensures NormalizeKey(NormalizeKey(s)) == NormalizeKey(s)
  {
    if s != [] {
      var c := LowerAscii(StripAccent(s[0]));
      var rest := NormalizeKey(s[1..]);
      NormalizeKeyIdempotent(s[1..]);
      if IsKeyChar(c) {
        KeyCharFixed(c);
        assert ([c] + rest)[0] == c;
        assert ([c] + rest)[1..] == rest;
      } else {
        assert NormalizeKey(s) == rest;
      }
    }
  }

  const FutbolKeys: set<string> := {"futbol", "futbol6", "futbol11", "football", "soccer"}
  const PadelKeys: set<string> := {"padel", "paddle"}

  /** The picture number: football pictures 1-2 and padel pictures 3-4
      alternate with the parity of the index; anything else cycles 1..4. */
  function ImageNumber(fieldType: Option<string>, index: nat): (n: nat)
    ensures 1 <= n <= 4
    ensures (fieldType.None? || fieldType.value == "") ==> n == index % 4 + 1
    ensures fieldType.Some? && NormalizeKey(fieldType.value) in FutbolKeys ==> n == index % 2 + 1
    ensures fieldType.Some? && NormalizeKey(fieldType.value) in PadelKeys ==> n == 3 + index % 2
    ensures fieldType.Some? && NormalizeKey(fieldType.value) !in FutbolKeys + PadelKeys ==> n == index % 4 + 1
  {
    if fieldType.None? || fieldType.value == "" then index % 4 + 1
    else
      var key := NormalizeKey(fieldType.value);
      if key in FutbolKeys then index % 2 + 1
      else if key in PadelKeys then 3 + index % 2
      else index % 4 + 1
  }

  /** `getFieldImage(type, index)`: always one of the four pictures. */
  function GetFieldImage(fieldType: Option<string>, index: nat): (path: string)
    ensures path == "/cancha" + [DigitChar(ImageNumber(fieldType, index))] + ".png"
  {
    "/cancha" + NatToString(ImageNumber(fieldType, index)) + ".png"
  }

  /** Football keys give pictures 1-2, padel keys 3-4; no key is both. */
  lemma ImageKinds(fieldType: string, index: nat)
    ensures NormalizeKey(fieldType) in FutbolKeys ==> ImageNumber(Some(fieldType), index) in {1, 2}
    ensures NormalizeKey(fieldType) in PadelKeys ==> ImageNumber(Some(fieldType), index) in {3, 4}
    ensures FutbolKeys * PadelKeys == {}
  {
  }

  /** One character in front of a string: it is kept, normalised, exactly
      when it normalises to a key character. */
  lemma NormalizeCons(c: char, rest: string)
    ensures NormalizeKey([c] + rest) ==
      (if IsKeyChar(LowerAscii(StripAccent(c))) then [LowerAscii(StripAccent(c))] else []) + NormalizeKey(rest)
  {
    assert ([c] + rest)[0] == c && ([c] + rest)[1..] == rest;
  }

  /** The key of a string of key characters is the string itself. */
  lemma {:induction false} NormalizeKeyChars(s: string)
    requires forall i :: 0 <= i < |s| ==> IsKeyChar(s[i])
    ensures NormalizeKey(s) == s
  {
    if s != [] {
      KeyCharFixed(s[0]);
      NormalizeKeyChars(s[1..]);
      NormalizeCons(s[0], s[1..]);
      assert s == [s[0]] + s[1..];
    }
  }

  /** Dashes do not matter. */
  lemma NormalizeDashedKey()
    ensures NormalizeKey("futbol-6") == "futbol6"
  {
    NormalizeKeyChars("6");
    NormalizeCons('-', "6");
    NormalizeKeyChars("futbol");
    assert "futbol-6" == "futbol" + "-6";
    NormalizeAppend("futbol", "-6");
  }

  /** Case and spaces do not matter. */
  lemma NormalizeSpacedKey()
    ensures NormalizeKey("Futbol 6") == "futbol6"
  {
    NormalizeKeyChars("6");
    NormalizeCons(' ', "6");
    NormalizeKeyChars("utbol");
    assert " 6" == [' '] + "6";
    assert "utbol 6" == "utbol" + " 6";
    NormalizeAppend("utbol", " 6");
    NormalizeCons('F', "utbol 6");
    assert "Futbol 6" == ['F'] + "utbol 6";
  }

  /** Normalisation works character by character. */
  lemma {:induction false} NormalizeAppend(a: string, b: string)
    ensures NormalizeKey(a + b) == NormalizeKey(a) + NormalizeKey(b)
  {
    if a != [] {
      NormalizeAppend(a[1..], b);
      assert (a + b)[0] == a[0] && (a + b)[1..] == a[1..] + b;
    } else {
      assert a + b == b;
    }
  }

  /** Accents do not matter. */
  lemma NormalizeAccentedKey()
    ensures NormalizeKey("Pádel") == "padel"
  {
    NormalizeKeyChars("del");
    NormalizeCons('á', "del");
    assert "ádel" == ['á'] + "del";
    NormalizeCons('P', "ádel");
    assert "Pádel" == ['P'] + "ádel";
  }

  /** The accented padel name gets a padel picture. */
  lemma AccentedPadelImage(index: nat)
    ensures ImageNumber(Some("Pádel"), index) == 3 + index % 2
  {
    NormalizeAccentedKey();
    assert "padel" in PadelKeys;
  }
}
