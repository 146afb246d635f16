/** Go string comparison and lower-casing, on `seq<char>`. */
module Strings {

  /**
   * Go's `a < b` on strings: lexicographic order of the UTF-8 bytes. For
   * Unicode scalar values the order of code points is the order of their
   * UTF-8 encodings, so comparing characters gives the same answer.
   */
  predicate LexLess(a: string, b: string)
    decreases |a|
  {
    if |a| == 0 then |b| > 0
    else if |b| == 0 then false
    else if a[0] != b[0] then a[0] < b[0]
    else LexLess(a[1..], b[1..])
  }

  /** Go's `a <= b` on strings. */
  predicate LexLessOrEqual(a: string, b: string) {
    a == b || LexLess(a, b)
  }

  /**
   * Which strings lie in the closed range ["0", "9"] of Go's string order:
   * those starting with a digit below '9', and "9" itself ("90" > "9").
   */
  lemma {:induction false} DigitRange(r: string)
    ensures LexLessOrEqual("0", r) && LexLessOrEqual(r, "9")
            <==> |r| > 0 && ('0' <= r[0] < '9' || r == "9")
  {
    if |r| > 0 {
      if r[0] == '0' && |r| > 1 {
        assert LexLess("0", r) by {
          assert "0"[1..] == [] && r[1..] != [];
        }
      }
      if r[0] == '9' && |r| > 1 {
        assert LexLess("9", r) by {
          assert "9"[1..] == [] && r[1..] != [];
        }
        assert !LexLess(r, "9") by {
          assert "9"[1..] == [];
        }
      }
    }
  }

  /** ASCII upper-case letters become lower case; every other character is kept. */
  function LowerChar(c: char): (l: char)
    ensures 'A' <= c <= 'Z' ==> 'a' <= l <= 'z' && l as int - c as int == 32
    ensures !('A' <= c <= 'Z') ==> l == c
  {
    if 'A' <= c <= 'Z' then (c as int + 32) as char else c
  }

  /** Go's `strings.ToLower`, restricted to the ASCII letters. */
  function ToLower(s: string): (r: string)
    ensures |r| == |s|
    ensures forall i | 0 <= i < |s| :: r[i] == LowerChar(s[i])
  {
    seq(|s|, i requires 0 <= i < |s| => LowerChar(s[i]))
  }

  /** A string with no upper-case ASCII letter. */
  predicate IsLower(s: string) {
    forall i | 0 <= i < |s| :: !('A' <= s[i] <= 'Z')
  }

  /** Lower-casing is the identity exactly on strings that are already lower case. */
  lemma ToLowerFixesLower(s: string)
    ensures ToLower(s) == s <==> IsLower(s)
  {
  }

  /** Lower-casing twice is lower-casing once. */
  lemma ToLowerIdempotent(s: string)
    ensures IsLower(ToLower(s))
    ensures ToLower(ToLower(s)) == ToLower(s)
  {
  }
}
