/**
 * Character and string helpers with the meaning of the Python built-ins they stand for:
 * ASCII case mapping (`str.lower`, `str.upper`), `str.strip`, `str.rstrip(ch)`,
 * `str.replace`, `in` on strings, `key.rsplit("/", 1)[-1]` and `str(int)`.
 */
module Text {

  function Lower(c: char): char {
    if 'A' <= c <= 'Z' then (c as int + 32) as char else c
  }

  function Upper(c: char): char {
    if 'a' <= c <= 'z' then (c as int - 32) as char else c
  }

  function LowerStr(s: string): string {
    seq(|s|, i requires 0 <= i < |s| => Lower(s[i]))
  }

  function UpperStr(s: string): string {
    seq(|s|, i requires 0 <= i < |s| => Upper(s[i]))
  }

  /** Two strings that a case-insensitive match cannot tell apart. */
  predicate SameIgnoringCase(a: string, b: string) {
    LowerStr(a) == LowerStr(b)
  }

  /** Upper-casing depends only on the lower-cased character. */
  lemma UpperOfSameLower(c: char, d: char)
    requires Lower(c) == Lower(d) && Upper(d) == d
    ensures Upper(c) == d
  {
  }

  lemma {:induction false} UpperStrOfSameLower(x: string, t: string)
    requires SameIgnoringCase(x, t) && UpperStr(t) == t
    ensures UpperStr(x) == t
  {
    assert |x| == |LowerStr(x)| == |LowerStr(t)| == |t|;
    forall i | 0 <= i < |x| ensures UpperStr(x)[i] == t[i] {
      assert LowerStr(x)[i] == LowerStr(t)[i];
      assert UpperStr(t)[i] == t[i];
      UpperOfSameLower(x[i], t[i]);
    }
  }

  lemma LowerUpperStr(s: string)
    ensures LowerStr(UpperStr(s)) == LowerStr(s)
  {
  }

  lemma LowerStrConcat(a: string, b: string)
    ensures LowerStr(a + b) == LowerStr(a) + LowerStr(b)
  {
  }

  /** The characters `str.isspace` accepts, hence those `str.strip()` removes. */
  predicate IsSpace(c: char) {
    var n := c as int;
    (9 <= n <= 13) || (28 <= n <= 32) || n == 0x85 || n == 0xA0 || n == 0x1680 ||
    (0x2000 <= n <= 0x200A) || n == 0x2028 || n == 0x2029 || n == 0x202F ||
    n == 0x205F || n == 0x3000
  }

  /** Drops the longest prefix of characters satisfying `drop`. */
  function TrimLeft(s: string, drop: char -> bool): (r: string)
    ensures |r| <= |s| && r == s[|s| - |r|..]
    ensures r == [] || !drop(r[0])
    ensures forall i :: 0 <= i < |s| - |r| ==> drop(s[i])
  {
    if s == [] || !drop(s[0]) then s else TrimLeft(s[1..], drop)
  }

  /** Drops the longest suffix of characters satisfying `drop` (`str.rstrip(chars)`). */
  function TrimRight(s: string, drop: char -> bool): (r: string)
    ensures |r| <= |s| && r == s[..|r|]
    ensures r == [] || !drop(r[|r| - 1])
    ensures forall i :: |r| <= i < |s| ==> drop(s[i])
  {
    if s == [] || !drop(s[|s| - 1]) then s else TrimRight(s[..|s| - 1], drop)
  }

  /** `str.strip()`. */
  function Strip(s: string): string {
    TrimRight(TrimLeft(s, IsSpace), IsSpace)
  }

  /** A string with no surrounding white space is its own strip. */
  lemma StripOfStripped(s: string)
    requires s == [] || (!IsSpace(s[0]) && !IsSpace(s[|s| - 1]))
    ensures Strip(s) == s
  {
  }

  /** `sub in s`. */
  function Contains(s: string, sub: string): bool
    decreases |s|
  {
    sub <= s || (|s| > 0 && Contains(s[1..], sub))
  }

  lemma {:induction false} ContainsNeedsChar(s: string, sub: string, c: char)
    requires c in sub && c !in s
    ensures !Contains(s, sub)
    decreases |s|
  {
    if |s| > 0 {
      ContainsNeedsChar(s[1..], sub, c);
    }
  }

  /** `s.replace(pat, rep)`: every non-overlapping occurrence, scanning left to right. */
  function ReplaceAll(s: string, pat: string, rep: string): string
    requires pat != []
    decreases |s|
  {
    if s == [] then []
    else if pat <= s then rep + ReplaceAll(s[|pat|..], pat, rep)
    else [s[0]] + ReplaceAll(s[1..], pat, rep)
  }

  lemma {:induction false} ReplaceAbsent(s: string, pat: string, rep: string)
    requires pat != [] && !Contains(s, pat)
    ensures ReplaceAll(s, pat, rep) == s
    decreases |s|
  {
    if s != [] {
      ReplaceAbsent(s[1..], pat, rep);
    }
  }

  /** `s.replace(" ", "")`. */
  function RemoveSpaces(s: string): (r: string)
    ensures ' ' !in r
  {
    if s == [] then [] else (if s[0] == ' ' then [] else [s[0]]) + RemoveSpaces(s[1..])
  }

  lemma {:induction false} RemoveSpacesAbsent(s: string)
    requires ' ' !in s
    ensures RemoveSpaces(s) == s
  {
    if s != [] {
      RemoveSpacesAbsent(s[1..]);
    }
  }

  /** One character: a space is dropped, any other character is kept. */
  lemma RemoveSpacesChar(c: char)
    ensures RemoveSpaces([c]) == if c == ' ' then [] else [c]
  {
    assert [c][1..] == [];
  }

  /**
   * Removing spaces distributes over concatenation; with `RemoveSpacesChar` this says the
   * result is the input with exactly its spaces dropped and every other character kept, in order.
   */
  lemma {:induction false} RemoveSpacesConcat(a: string, b: string)
    ensures RemoveSpaces(a + b) == RemoveSpaces(a) + RemoveSpaces(b)
  {
    if a == [] {
      assert a + b == b;
    } else {
      assert (a + b)[0] == a[0];
      assert (a + b)[1..] == a[1..] + b;
      RemoveSpacesConcat(a[1..], b);
      var head := if a[0] == ' ' then [] else [a[0]];
      calc {
        RemoveSpaces(a + b);
        head + RemoveSpaces(a[1..] + b);
        head + (RemoveSpaces(a[1..]) + RemoveSpaces(b));
        (head + RemoveSpaces(a[1..])) + RemoveSpaces(b);
        RemoveSpaces(a) + RemoveSpaces(b);
      }
    }
  }

  /** The position of the last `/` in the key, or -1 when it has none. */
  function LastSlash(key: string): (j: int)
    ensures -1 <= j < |key|
    ensures j >= 0 ==> key[j] == '/'
    ensures forall i :: j < i < |key| ==> key[i] != '/'
  {
    if key == [] then -1
    else if key[|key| - 1] == '/' then |key| - 1
    else LastSlash(key[..|key| - 1])
  }

  /** `key.rsplit("/", 1)[-1]`: the text after the last slash, or the whole key. */
  function LastSegment(key: string): string {
    key[LastSlash(key) + 1..]
  }

  /** The name is the part of the key after its last `/`: a suffix without `/`, preceded by one. */
  lemma LastSegmentSuffix(key: string)
    ensures var name := LastSegment(key);
      && |name| <= |key| && name == key[|key| - |name|..]
      && '/' !in name
      && (|name| < |key| ==> key[|key| - |name| - 1] == '/')
  {
  }

  /** `s.endswith(suffix)`. */
  predicate EndsWith(s: string, suffix: string) {
    |suffix| <= |s| && s[|s| - |suffix|..] == suffix
  }

  predicate IsDigit(c: char) {
    '0' <= c <= '9'
  }

  function DigitChar(d: int): char
    requires 0 <= d <= 9
  {
    ('0' as int + d) as char
  }

  /** `str(n)` for a natural number. */
  function NatToString(n: nat): (s: string)
    ensures |s| > 0 && forall i :: 0 <= i < |s| ==> IsDigit(s[i])
  {
    if n < 10 then [DigitChar(n)] else NatToString(n / 10) + [DigitChar(n % 10)]
  }

  /** `str(i)` for any integer. */
  function IntToString(i: int): string {
    if i < 0 then "-" + NatToString(-i) else NatToString(i)
  }
}
