/** Python's idea of white space. */
module PyText {
  /** White space as `str.strip` knows it. */
  predicate IsBlank(c: char) {
    var n := c as int;
    9 <= n <= 13 || 28 <= n <= 32 || n == 0x85 || n == 0xa0 || n == 0x1680 || 0x2000 <= n <= 0x200a ||
    n == 0x2028 || n == 0x2029 || n == 0x202f || n == 0x205f || n == 0x3000
  }

  function StripEnd(s: string): string {
    if s != [] && IsBlank(s[|s| - 1]) then StripEnd(s[..|s| - 1]) else s
  }

  lemma {:induction false} StripEndIsPrefix(s: string)
    ensures StripEnd(s) <= s
  {
    if s != [] && IsBlank(s[|s| - 1]) {
      StripEndIsPrefix(s[..|s| - 1]);
    }
  }

  function StripStart(s: string): string {
    if s != [] && IsBlank(s[0]) then StripStart(s[1..]) else s
  }

  function Strip(s: string): string {
    StripEnd(StripStart(s))
  }

  lemma {:induction false} StripStartIs(s: string) returns (i: nat)
    ensures i <= |s| && StripStart(s) == s[i..] && (forall k :: 0 <= k < i ==> IsBlank(s[k]))
    ensures i < |s| ==> !IsBlank(s[i])
  {
    i := 0;
    if s != [] && IsBlank(s[0]) {
      i := StripStartIs(s[1..]);
      i := i + 1;
    }
  }

  lemma {:induction false} StripEndIs(s: string) returns (j: nat)
    ensures j <= |s| && StripEnd(s) == s[..j] && (forall k :: j <= k < |s| ==> IsBlank(s[k]))
    ensures j > 0 ==> !IsBlank(s[j - 1])
  {
    j := |s|;
    if s != [] && IsBlank(s[|s| - 1]) {
      j := StripEndIs(s[..|s| - 1]);
    }
  }

  /** Stripping takes the blanks off both ends and nothing else. */
  lemma {:induction false} StripIs(s: string) returns (i: nat, j: nat)
    ensures i <= j <= |s| && Strip(s) == s[i..j]
    ensures (forall k :: 0 <= k < i ==> IsBlank(s[k])) && forall k :: j <= k < |s| ==> IsBlank(s[k])
    ensures i < j ==> !IsBlank(s[i]) && !IsBlank(s[j - 1])
  {
    i := StripStartIs(s);
    var n := StripEndIs(s[i..]);
    j := i + n;
    forall k | j <= k < |s| ensures IsBlank(s[k]) {
      assert s[i..][k - i] == s[k];
    }
  }
}
