/** The atomic mutation operators of the three mutation fuzzers. Each random draw of
    poly_fuzzer's code (a position, a character code, a pick from an alphabet) is a
    parameter whose precondition is the inclusive range the draw comes from. */
module Mutators {
  import opened PyStrings

  /** chr(random.randrange(32, 127)): a printable ASCII code. */
  predicate Printable(code: int)
  {
    32 <= code <= 126
  }

  /** Delete one character, unless the string has at most five. */
  function DeleteRandomCharacter(s: string, pos: int): (r: string)
    requires |s| > 5 ==> 0 <= pos <= |s| - 1
    ensures |s| <= 5 ==> r == s
    ensures |s| > 5 ==> |r| == |s| - 1
    ensures |s| > 5 ==> forall k :: 0 <= k < pos ==> r[k] == s[k]
    ensures |s| > 5 ==> forall k :: pos <= k < |r| ==> r[k] == s[k + 1]
  {
    if |s| > 5 then s[..pos] + s[pos + 1..] else s
  }

  /** Insert one printable character at `pos`, which may be the end. */
  function InsertRandomCharacter(s: string, pos: int, code: int): (r: string)
    requires 0 <= pos <= |s| && Printable(code)
    ensures |r| == |s| + 1 && r[pos] == code as char
    ensures forall k :: 0 <= k < pos ==> r[k] == s[k]
    ensures forall k :: pos < k < |r| ==> r[k] == s[k - 1]
  {
    s[..pos] + [code as char] + s[pos..]
  }

  /** Overwrite one character with a printable one; the empty string is returned as it is. */
  function ReplaceRandomCharacter(s: string, pos: int, code: int): (r: string)
    requires s != [] ==> 0 <= pos <= |s| - 1 && Printable(code)
    ensures |r| == |s|
    ensures s != [] ==> r[pos] == code as char
    ensures forall k :: 0 <= k < |s| && k != pos ==> r[k] == s[k]
  {
    if s == [] then [] else s[..pos] + [code as char] + s[pos + 1..]
  }

  /** Insert '/' at `pos`. */
  function InsertRandomSlash(s: string, pos: int): (r: string)
    requires 0 <= pos <= |s|
    ensures |r| == |s| + 1 && r[pos] == '/'
    ensures forall k :: 0 <= k < pos ==> r[k] == s[k]
    ensures forall k :: pos < k < |r| ==> r[k] == s[k - 1]
  {
    s[..pos] + ['/'] + s[pos..]
  }

  /** The alphabet of `_insert_random_special_character`. */
  const SpecialCharacters: seq<char> := ['&', '=', '?', '#', '%', ' ']

  /** Insert the special character `SpecialCharacters[pick]` at `pos`. */
  function InsertRandomSpecialCharacter(s: string, pos: int, pick: int): (r: string)
    requires 0 <= pos <= |s| && 0 <= pick < |SpecialCharacters|
    ensures |r| == |s| + 1 && r[pos] == SpecialCharacters[pick]
    ensures forall k :: 0 <= k < pos ==> r[k] == s[k]
    ensures forall k :: pos < k < |r| ==> r[k] == s[k - 1]
  {
    s[..pos] + [SpecialCharacters[pick]] + s[pos..]
  }

  /** The prefix s[:pos], a slash, then the rest: for the same position this is exactly
      `InsertRandomSlash`. */
  function ConcatenateRandomSlash(s: string, pos: int): (r: string)
    requires 0 <= pos <= |s|
    ensures r == InsertRandomSlash(s, pos)
  {
    var randomSubstring := s[..pos];
    randomSubstring + "/" + s[pos..]
  }

  /** s.replace("+", " "): a one-character pattern is replaced at every position. */
  function MutatePlusToSpace(s: string): (r: string)
    ensures |r| == |s| && '+' !in r
    ensures forall k :: 0 <= k < |s| && s[k] != '+' ==> r[k] == s[k]
    ensures forall k :: 0 <= k < |s| && s[k] == '+' ==> r[k] == ' '
  {
    seq(|s|, k requires 0 <= k < |s| => if s[k] == '+' then ' ' else s[k])
  }

  /** Deleting at the position of an insertion undoes it (the string must be long enough
      for the delete not to be a no-op). */
  lemma InsertThenDelete(s: string, pos: int, code: int)
    requires |s| >= 5 && 0 <= pos <= |s| && Printable(code)
    ensures DeleteRandomCharacter(InsertRandomCharacter(s, pos, code), pos) == s
  {
    var r := DeleteRandomCharacter(InsertRandomCharacter(s, pos, code), pos);
    assert |r| == |s|;
    forall k | 0 <= k < |s| ensures r[k] == s[k] {
      if k >= pos {
        assert r[k] == InsertRandomCharacter(s, pos, code)[k + 1];
      }
    }
  }

  /** Writing back the character a replacement overwrote restores the string. */
  lemma ReplaceThenRestore(s: string, pos: int, code: int)
    requires s != [] && 0 <= pos < |s| && Printable(code) && Printable(s[pos] as int)
    ensures ReplaceRandomCharacter(ReplaceRandomCharacter(s, pos, code), pos, s[pos] as int) == s
  {
    var r := ReplaceRandomCharacter(ReplaceRandomCharacter(s, pos, code), pos, s[pos] as int);
    assert |r| == |s|;
    forall k | 0 <= k < |s| ensures r[k] == s[k] {
    }
  }

  /** A second `MutatePlusToSpace` changes nothing. */
  lemma PlusToSpaceIdempotent(s: string)
    ensures MutatePlusToSpace(MutatePlusToSpace(s)) == MutatePlusToSpace(s)
  {
    var once := MutatePlusToSpace(s);
    forall k | 0 <= k < |once| ensures MutatePlusToSpace(once)[k] == once[k] {
      assert once[k] != '+' by { assert once[k] in once; }
    }
  }

  // ---------------------------------------------------------------------------
  // The HTML operators

  const BodyOpen: string := "<body>"
  const BodyClose: string := "</body>"

  /** The ten draws of random.choices over the lower-case alphabet. */
  predicate IsFiller(letters: string)
  {
    |letters| == 10 && forall k :: 0 <= k < |letters| ==> 'a' <= letters[k] <= 'z'
  }

  /** A paragraph of ten random lower-case letters. */
  function GenerateRandomHtmlContent(letters: string): (r: string)
    requires IsFiller(letters)
    ensures |r| == 17
    ensures r[..3] == "<p>" && r[13..] == "</p>" && r[3..13] == letters
    ensures forall k :: 3 <= k < 13 ==> 'a' <= r[k] <= 'z'
  {
    "<p>" + letters + "</p>"
  }

  /** `_replace_body_content` as written: the slice from the first "<body>" to just past the
      first "</body>" is replaced, at its first occurrence, by a generated paragraph. The
      guard on the closing tag tests `find + 7 != -1`, which always holds, so the input is
      returned as it is exactly when "<body>" is missing. */
  function ReplaceBodyContent(s: string, letters: string): (r: string)
    requires Find(s, BodyOpen) != -1 ==> IsFiller(letters)
    ensures Find(s, BodyOpen) == -1 ==> r == s
    ensures Find(s, BodyOpen) != -1 ==>
      r == ReplaceFirst(s, Slice(s, Find(s, BodyOpen), Find(s, BodyClose) + |BodyClose|), GenerateRandomHtmlContent(letters))
  {
    var bodyStart := Find(s, BodyOpen);
    var bodyEnd := Find(s, BodyClose) + |BodyClose|;
    if bodyStart != -1 && bodyEnd != -1 then
      var bodyContent := Slice(s, bodyStart, bodyEnd);
      ReplaceFirst(s, bodyContent, GenerateRandomHtmlContent(letters))
    else s
  }

  /** Replacing a present, non-empty pattern by a different string of the same length,
      or by one of another length, never gives back the input. */
  lemma ReplaceFirstChanges(s: string, target: string, replacement: string, i: int)
    requires OccursAt(s, target, i) && target != []
    requires |target| == |replacement| ==> target != replacement
    ensures ReplaceFirst(s, target, replacement) != s
  {
    var k := Find(s, target);
    assert OccursAt(s, target, k);
    var r := ReplaceFirst(s, target, replacement);
    assert r == s[..k] + replacement + s[k + |target|..];
  }

  /** The closing-tag guard is always true, so the string is rewritten exactly when
      "<body>" occurs, whether or not "</body>" does. */
  lemma ReplaceBodyRewritesIffOpeningTag(s: string, letters: string)
    requires Find(s, BodyOpen) != -1 ==> IsFiller(letters)
    ensures Find(s, BodyClose) + |BodyClose| != -1
    ensures ReplaceBodyContent(s, letters) == s <==> Find(s, BodyOpen) == -1
  {
    var i := Find(s, BodyOpen);
    if i != -1 {
      var paragraph := GenerateRandomHtmlContent(letters);
      var bodyEnd := Find(s, BodyClose) + |BodyClose|;
      assert OccursAt(s, BodyOpen, i);
      assert 6 <= bodyEnd <= |s|;
      var content := Slice(s, i, bodyEnd);
      if content != [] {
        assert content == s[i..bodyEnd];
        if |content| == |paragraph| {
          assert content[1] == s[i + 1] == BodyOpen[1];
          assert paragraph[1] == 'p';
        }
        ReplaceFirstChanges(s, content, paragraph, i);
      }
    }
  }

  /** A pattern that occurs at `k` has its own characters there. */
  lemma CharAt(s: string, pat: string, k: int, m: int)
    requires OccursAt(s, pat, k) && 0 <= m < |pat|
    ensures s[k + m] == pat[m]
  {
    assert s[k..k + |pat|][m] == s[k + m];
  }

  /** Where a string occurs, so does each of its prefixes. */
  lemma PrefixOccurs(s: string, pat: string, prefix: string, k: int)
    requires OccursAt(s, pat, k) && |prefix| <= |pat| && pat[..|prefix|] == prefix
    ensures OccursAt(s, prefix, k)
  {
    assert s[k..k + |prefix|] == s[k..k + |pat|][..|prefix|];
  }

  /** The span from the first "<body>" to a later "</body>" first occurs where it starts. */
  lemma FirstBodySpan(s: string, i: int, j: int)
    requires Find(s, BodyOpen) == i && i != -1 && OccursAt(s, BodyClose, j) && j > i
    ensures Find(s, s[i..j + 7]) == i
  {
    var content := s[i..j + 7];
    assert OccursAt(s, content, i);
    assert content[..6] == s[i..i + 6] == BodyOpen;
    forall k | k < i ensures !OccursAt(s, content, k) {
      if OccursAt(s, content, k) {
        PrefixOccurs(s, content, BodyOpen, k);
      }
    }
  }

  /** With "<body>" first at `i` and "</body>" first at `j > i`, `_replace_body_content`
      replaces the span from one to the end of the other. */
  lemma ReplaceBodySpan(s: string, letters: string, i: int, j: int)
    requires Find(s, BodyOpen) == i && i != -1 && Find(s, BodyClose) == j && j > i
    requires IsFiller(letters)
    ensures j + 7 <= |s|
    ensures ReplaceBodyContent(s, letters) == ReplaceFirst(s, s[i..j + 7], GenerateRandomHtmlContent(letters))
  {
    var bodyEnd := Find(s, BodyClose) + |BodyClose|;
    assert bodyEnd == j + 7;
    assert OccursAt(s, BodyClose, j);
    assert Slice(s, Find(s, BodyOpen), bodyEnd) == s[i..j + 7];
  }

  /** That span first occurs where it starts, so the replacement happens there. */
  lemma ReplaceSpanAt(s: string, paragraph: string, i: int, j: int)
    requires Find(s, BodyOpen) == i && i != -1 && OccursAt(s, BodyClose, j) && j > i
    ensures ReplaceFirst(s, s[i..j + 7], paragraph) == s[..i] + paragraph + s[j + 7..]
  {
    FirstBodySpan(s, i, j);
  }

  /** With "<body>" first at `i` and "</body>" first at `j > i`, the tagged body (both tags
      included) is replaced by the paragraph. */
  lemma ReplaceBodyWellFormed(s: string, letters: string, i: int, j: int)
    requires Find(s, BodyOpen) == i && i != -1 && Find(s, BodyClose) == j && j > i
    requires IsFiller(letters)
    ensures ReplaceBodyContent(s, letters) == s[..i] + GenerateRandomHtmlContent(letters) + s[j + 7..]
  {
    ReplaceBodySpan(s, letters, i, j);
    ReplaceSpanAt(s, GenerateRandomHtmlContent(letters), i, j);
  }

  /** No character of "</body>" after the first is an opening bracket. */
  lemma BodyCloseTail(m: int)
    requires 1 <= m < |BodyClose|
    ensures BodyClose[m] != '<'
  {
  }

  /** A "</body>" that precedes the first "<body>" gives an empty slice, and replacing the
      empty string prepends the paragraph to the whole input. */
  lemma ReplaceBodyClosingBeforeOpening(s: string, letters: string)
    requires Find(s, BodyOpen) != -1 && Find(s, BodyClose) != -1
    requires Find(s, BodyClose) < Find(s, BodyOpen)
    requires IsFiller(letters)
    ensures ReplaceBodyContent(s, letters) == GenerateRandomHtmlContent(letters) + s
  {
    var i, j := Find(s, BodyOpen), Find(s, BodyClose);
    if i < j + 7 {
      CharAt(s, BodyOpen, i, 0);
      CharAt(s, BodyClose, j, i - j);
      BodyCloseTail(i - j);
      assert false;
    }
    assert Slice(s, i, j + 7) == [];
  }

  /** Without any "</body>", the slice ends at index 6. An input starting with "<body>"
      loses that tag; one whose first "<body>" starts at 6 or later gets the paragraph
      prepended. */
  lemma ReplaceBodyUnclosed(s: string, letters: string)
    requires Find(s, BodyClose) == -1
    requires Find(s, BodyOpen) == 0 || Find(s, BodyOpen) >= 6
    requires IsFiller(letters)
    ensures Find(s, BodyOpen) == 0 ==>
      ReplaceBodyContent(s, letters) == GenerateRandomHtmlContent(letters) + s[6..]
    ensures Find(s, BodyOpen) >= 6 ==>
      ReplaceBodyContent(s, letters) == GenerateRandomHtmlContent(letters) + s
  {
    var i := Find(s, BodyOpen);
    var paragraph := GenerateRandomHtmlContent(letters);
    assert OccursAt(s, BodyOpen, i);
    assert Find(s, BodyClose) + |BodyClose| == 6;
    if i == 0 {
      assert Slice(s, 0, 6) == BodyOpen;
      assert ReplaceFirst(s, BodyOpen, paragraph) == paragraph + s[6..];
    } else {
      assert Slice(s, i, 6) == [];
      assert ReplaceFirst(s, [], paragraph) == paragraph + s;
    }
  }
}
