/** C strings as sequences of characters without their terminator, and the
    library calls on them that the server relies on. */
module CStrings {

  const NUL: char := '\0'

  /** `needle` sits in `hay` at offset `k`. */
  predicate OccursAt(hay: string, needle: string, k: int) {
    0 <= k <= |hay| - |needle| && hay[k..k + |needle|] == needle
  }

  /** strstr(hay, needle) != NULL. */
  predicate Contains(hay: string, needle: string) {
    exists k | 0 <= k <= |hay| :: OccursAt(hay, needle, k)
  }

  predicate Free(s: string, c: char) {
    forall k | 0 <= k < |s| :: s[k] != c
  }

  /** The first position of `c` in `s`, |s| when there is none. */
  function IndexOf(s: string, c: char): (k: nat)
    ensures k <= |s|
    ensures Free(s[..k], c)
    ensures k < |s| ==> s[k] == c
  {
    if s == [] || s[0] == c then 0
    else
      assert forall j | 0 < j < |s| :: s[j] == s[1..][j - 1];
      1 + IndexOf(s[1..], c)
  }

  /** A position with no `c` before it and `c` at it is the first one. */
  lemma {:induction false} IndexOfIs(s: string, c: char, k: nat)
    requires k < |s| && s[k] == c && Free(s[..k], c)
    ensures IndexOf(s, c) == k
  {
    if k == 0 {
    } else {
      assert s[..k][0] == s[0];
      assert s[1..][..k - 1] == s[..k][1..];
      IndexOfIs(s[1..], c, k - 1);
    }
  }

  /** A scan that has not passed the first `c` and meets one has found it. */
  lemma FirstIs(s: string, c: char, i: nat)
    requires i <= IndexOf(s, c) && i < |s| && s[i] == c
    ensures IndexOf(s, c) == i
  {
    forall k | 0 <= k < i
      ensures s[..i][k] != c
    {
      assert s[..IndexOf(s, c)][k] == s[k];
    }
    IndexOfIs(s, c, i);
  }

  /** Matching at an offset, letter by letter. */
  lemma OccursLetter(hay: string, needle: string, k: nat, j: nat)
    requires OccursAt(hay, needle, k) && j < |needle|
    ensures hay[k + j] == needle[j]
  {
    assert hay[k..k + |needle|][j] == hay[k + j];
  }

  /** One differing letter rules out an occurrence. */
  lemma DiffersAt(hay: string, needle: string, k: nat, j: nat)
    requires j < |needle| && k + j < |hay| && hay[k + j] != needle[j]
    ensures !OccursAt(hay, needle, k)
  {
    if OccursAt(hay, needle, k) {
      OccursLetter(hay, needle, k, j);
    }
  }

  /** memcpy(buf + off, src, strlen(src)). */
  method Memcpy(buf: array<char>, off: nat, src: string)
    requires off + |src| <= buf.Length
    modifies buf
    ensures buf[..] == old(buf[..off]) + src + old(buf[off + |src|..])
  {
    forall k | 0 <= k < |src| {
      buf[off + k] := src[k];
    }
  }

  /** memcpy(buf + len, src, strlen(src)); len += strlen(src). */
  method Append(buf: array<char>, len: nat, src: string) returns (len': nat)
    requires len + |src| <= buf.Length
    modifies buf
    ensures len' == len + |src|
    ensures buf[..len'] == old(buf[..len]) + src
  {
    Memcpy(buf, len, src);
    len' := len + |src|;
  }
}
