/** RandomFuzzer's string generator: a join of characters picked from the alphabet
    ascii_letters + digits + punctuation. Each pick is the index random.choice draws. */
module RandomStrings {
  /** The `n` consecutive characters from code point `first`. */
  function CharRange(first: int, n: nat): (r: string)
    requires 0 <= first && first + n <= 128
    ensures |r| == n && forall k :: 0 <= k < n ==> r[k] as int == first + k
  {
    if n == 0 then [] else CharRange(first, n - 1) + [(first + n - 1) as char]
  }

  /** string.ascii_lowercase, string.ascii_uppercase and string.digits. */
  const Lowercase: string := CharRange('a' as int, 26)
  const Uppercase: string := CharRange('A' as int, 26)
  const AsciiLetters: string := Lowercase + Uppercase
  const Digits: string := CharRange('0' as int, 10)
  /** string.punctuation: the four runs of ASCII symbols "!" to "/", ":" to "@",
      "[" to "`" and "{" to "~". */
  const Punctuation: string :=
    CharRange('!' as int, 15) + CharRange(':' as int, 7) + CharRange('[' as int, 6) + CharRange('{' as int, 4)

  /** The `letters` alphabet of `generate_random_string`. */
  const Letters: string := AsciiLetters + Digits + Punctuation

  /** Picks that random.choice can return: indices into `Letters`. */
  predicate ValidPicks(picks: seq<int>)
  {
    forall k :: 0 <= k < |picks| ==> 0 <= picks[k] < |Letters|
  }

  /** `generate_random_string(len(picks))`, the k-th character being `Letters[picks[k]]`. */
  function GenerateRandomString(picks: seq<int>): (r: string)
    requires ValidPicks(picks)
    ensures |r| == |picks|
    ensures forall c :: c in r ==> c in Letters
  {
    if picks == [] then []
    else [Letters[picks[0]]] + GenerateRandomString(picks[1..])
  }

  /** Every character of `s` is printable and not a space. */
  predicate Visible(s: string)
  {
    forall k :: 0 <= k < |s| ==> 33 <= s[k] as int <= 126
  }

  lemma AsciiLettersVisible()
    ensures Visible(AsciiLetters)
  {
    assert Visible(Lowercase) && Visible(Uppercase);
  }

  lemma PunctuationVisible()
    ensures Visible(Punctuation)
  {
    assert Visible(CharRange('!' as int, 15)) && Visible(CharRange(':' as int, 7));
    assert Visible(CharRange('[' as int, 6)) && Visible(CharRange('{' as int, 4));
  }

  /** The alphabet has 94 characters, all printable and none of them a space. */
  lemma LettersVisible()
    ensures |Letters| == 94
    ensures Visible(Letters)
  {
    AsciiLettersVisible();
    assert Visible(Digits);
    PunctuationVisible();
  }

  /** The first index of `c` in `Letters`. */
  function IndexOf(c: char): (k: int)
    requires c in Letters
    ensures 0 <= k < |Letters| && Letters[k] == c
  {
    IndexFrom(Letters, c, 0)
  }

  function IndexFrom(s: string, c: char, from: nat): (k: int)
    requires from <= |s| && c in s[from..]
    ensures from <= k < |s| && s[k] == c
    decreases |s| - from
  {
    if s[from] == c then from else IndexFrom(s, c, from + 1)
  }

  /** The picks that spell `s`, one per character. */
  function PicksOf(s: string): (picks: seq<int>)
    requires forall c :: c in s ==> c in Letters
    ensures |picks| == |s| && ValidPicks(picks)
  {
    seq(|s|, k requires 0 <= k < |s| => IndexOf(s[k]))
  }

  /** Every string over the alphabet is some run of picks: the generator reaches exactly
      the strings over `Letters` of the requested length. */
  lemma {:induction false} GenerateOnto(s: string)
    requires forall c :: c in s ==> c in Letters
    ensures GenerateRandomString(PicksOf(s)) == s
    decreases |s|
  {
    if s != [] {
      assert PicksOf(s)[1..] == PicksOf(s[1..]);
      GenerateOnto(s[1..]);
    }
  }

  /** Characters are where the picks put them. */
  lemma {:induction false} GenerateAt(picks: seq<int>, k: int)
    requires ValidPicks(picks) && 0 <= k < |picks|
    ensures GenerateRandomString(picks)[k] == Letters[picks[k]]
    decreases |picks|
  {
    if k > 0 {
      GenerateAt(picks[1..], k - 1);
    }
  }
}
