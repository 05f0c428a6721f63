/**
 * The two string comparisons the directory relies on: `String.compareTo`
 * (ordinal, lexicographic on code units) and `String.equals(ignoreCase = true)`
 * (character-wise, after folding case). Case folding is restricted to the
 * ASCII letters.
 */
module Text {

  /** `Character.toUpperCase`, restricted to 'a'..'z'. */
  function UpperAscii(c: char): (u: char)
  {
    if 'a' <= c <= 'z' then (c as int - 32) as char else c
  }

  /** `Character.toLowerCase`, restricted to 'A'..'Z'. */
  function LowerAscii(c: char): (l: char)
  {
    if 'A' <= c <= 'Z' then (c as int + 32) as char else c
  }

  /**
   * The per-character test of a case-insensitive region match: the two
   * characters are equal, or their upper cases are, or the lower cases of
   * their upper cases are. This holds exactly when the lower cases agree.
   */
  function CharEqualsIgnoreCase(c1: char, c2: char): (r: bool)
    ensures r <==> LowerAscii(c1) == LowerAscii(c2)
  {
    c1 == c2
    || UpperAscii(c1) == UpperAscii(c2)
    || LowerAscii(UpperAscii(c1)) == LowerAscii(UpperAscii(c2))
  }

  /** Reference definition of case folding: lower-case every character. */
  function Lowercase(s: string): (r: string)
    ensures |r| == |s|
    ensures forall i :: 0 <= i < |s| ==> r[i] == LowerAscii(s[i])
  {
    if s == [] then [] else [LowerAscii(s[0])] + Lowercase(s[1..])
  }

  /**
   * `a.equals(b, ignoreCase = true)`: equal lengths and every position
   * matches. Equal strings always match, and strings of different lengths never do.
   */
  function EqualsIgnoreCase(a: string, b: string): (r: bool)
    ensures a == b ==> r
    ensures |a| != |b| ==> !r
  {
    |a| == |b| && forall i :: 0 <= i < |a| ==> CharEqualsIgnoreCase(a[i], b[i])
  }

  /** Ignoring case means exactly: the lower-cased strings are equal. */
  lemma EqualsIgnoreCaseIffSameLowercase(a: string, b: string)
    ensures EqualsIgnoreCase(a, b) <==> Lowercase(a) == Lowercase(b)
  {
  }

  /** Equality ignoring case is an equivalence relation. */
  lemma EqualsIgnoreCaseIsEquivalence(a: string, b: string, c: string)
    ensures EqualsIgnoreCase(a, a)
    ensures EqualsIgnoreCase(a, b) ==> EqualsIgnoreCase(b, a)
    ensures EqualsIgnoreCase(a, b) && EqualsIgnoreCase(b, c) ==> EqualsIgnoreCase(a, c)
  {
  }

  /**
   * `a.compareTo(b)`: the difference of the first pair of differing
   * characters, or else the difference of the lengths. It is zero exactly
   * for equal strings, and a prefix compares by length alone.
   */
  function CompareTo(a: string, b: string): (r: int)
    ensures r == 0 <==> a == b
    ensures a <= b ==> r == |a| - |b|
  {
    if a == [] || b == [] then |a| - |b|
    else if a[0] != b[0] then a[0] as int - b[0] as int
    else
      assert a == [a[0]] + a[1..] && b == [b[0]] + b[1..];
      CompareTo(a[1..], b[1..])
  }

  /** Lexicographic case: at the first differing position the result is the difference of the characters there. */
  lemma {:induction false} CompareToFirstDiff(a: string, b: string, k: nat)
    requires k < |a| && k < |b| && a[..k] == b[..k] && a[k] != b[k]
    ensures CompareTo(a, b) == a[k] as int - b[k] as int
  {
    if k > 0 {
      assert a[0] == a[..k][0] && b[0] == b[..k][0];
      assert a[1..][..k - 1] == a[..k][1..] && b[1..][..k - 1] == b[..k][1..];
      CompareToFirstDiff(a[1..], b[1..], k - 1);
    }
  }

  lemma {:induction false} CompareToAntisymmetric(a: string, b: string)
    ensures CompareTo(b, a) == -CompareTo(a, b)
  {
    if a != [] && b != [] && a[0] == b[0] {
      CompareToAntisymmetric(a[1..], b[1..]);
    }
  }

  lemma {:induction false} CompareToTransitive(a: string, b: string, c: string)
    requires CompareTo(a, b) <= 0 && CompareTo(b, c) <= 0
    ensures CompareTo(a, c) <= 0
  {
    if a != [] && b != [] && c != [] && a[0] == b[0] && b[0] == c[0] {
      CompareToTransitive(a[1..], b[1..], c[1..]);
    }
  }

  lemma CompareToSelf(a: string)
    ensures CompareTo(a, a) == 0
  {
  }
}
