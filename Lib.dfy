/**
 * The freestanding string routines of the kernel library: `strlen` and
 * `strcpy` over NUL-terminated character strings.
 *
 * Memory that a `const char *` points into is a `seq<char>` (it is only
 * read); a buffer that is written is an `array<char>`.
 */
module Lib {

  const NUL: char := '\0'

  /** The length of the C string at the start of s: the index of its first NUL. */
  function CLen(s: seq<char>): (n: nat)
    requires NUL in s
    ensures n < |s| && s[n] == NUL
    ensures forall i :: 0 <= i < n ==> s[i] != NUL
  {
    if s[0] == NUL then 0
    else
      assert NUL in s[1..];
      1 + CLen(s[1..])
  }

  /** The first NUL is unique: any index with a NUL and no NUL before it is the length. */
  lemma CLenUnique(s: seq<char>, n: nat)
    requires n < |s| && s[n] == NUL
    requires forall i :: 0 <= i < n ==> s[i] != NUL
    ensures CLen(s) == n
  {
  }

  /** A run without NUL that starts in the string ends in it too. */
  lemma NulFreeRun(s: seq<char>, i: nat, t: seq<char>)
    requires NUL in s && i <= CLen(s) && i + |t| <= |s| && s[i..i + |t|] == t && NUL !in t
    ensures i + |t| <= CLen(s)
  {
    forall k | i <= k < i + |t| ensures s[k] != NUL {
      assert s[k] == t[k - i];
    }
  }

  /** The C string at the start of s, without its terminator. */
  function CString(s: seq<char>): (r: seq<char>)
    requires NUL in s
    ensures |r| == CLen(s) && NUL !in r
    ensures s[..|r| + 1] == r + [NUL]
  {
    s[..CLen(s)]
  }

  /** `strlen(str)`: scans up to the first NUL. */
  method Strlen(str: seq<char>) returns (len: nat)
    requires NUL in str
    ensures len < |str| && str[len] == NUL
    ensures forall i :: 0 <= i < len ==> str[i] != NUL
    ensures len == CLen(str)
  {
    len := 0;
    while str[len] != NUL
      invariant len <= CLen(str)
      invariant forall i :: 0 <= i < len ==> str[i] != NUL
      decreases CLen(str) - len
    {
      len := len + 1;
    }
  }

  /**
   * `strcpy(dest, src)`: copies the characters of src up to and including its
   * NUL to the start of dest and returns dest; dest beyond the copied NUL is
   * left as it was. dest must have room for the string and its terminator.
   */
  method Strcpy(dest: array<char>, src: seq<char>) returns (r: array<char>)
    requires NUL in src && CLen(src) < dest.Length
    modifies dest
    ensures r == dest
    ensures dest[..] == CString(src) + [NUL] + old(dest[..])[CLen(src) + 1..]
    ensures CLen(dest[..]) == CLen(src)
  {
    var i := 0;
    while src[i] != NUL
      invariant i <= CLen(src)
      invariant forall j :: 0 <= j < i ==> dest[j] == src[j]
      invariant forall j :: i <= j < dest.Length ==> dest[j] == old(dest[j])
      decreases CLen(src) - i
    {
      dest[i] := src[i];
      i := i + 1;
    }
    dest[i] := NUL;
    assert dest[..] == CString(src) + [NUL] + old(dest[..])[i + 1..];
    CopiedStringLength(src, old(dest[..])[i + 1..]);
    r := dest;
  }

  /** Whatever follows the copied terminator, the copy is a string of the same length as the original. */
  lemma CopiedStringLength(src: seq<char>, rest: seq<char>)
    requires NUL in src
    ensures NUL in CString(src) + [NUL] + rest
    ensures CLen(CString(src) + [NUL] + rest) == CLen(src)
  {
    var t := CString(src) + [NUL] + rest;
    assert t[CLen(src)] == NUL;
    forall i | 0 <= i < CLen(src) ensures t[i] != NUL {
      assert t[i] == src[i];
    }
    CLenUnique(t, CLen(src));
  }
}
