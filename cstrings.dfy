/** The C string functions the driver relies on, over character buffers.
    A `char` stands for one byte of the AVR's memory; a buffer is the
    sequence of its bytes, and a C string is the part of a buffer before
    its first NUL. */
module CStrings {

  const NUL: char := 0 as char

  /** A C string's characters: no NUL inside. */
  type Text = s: string | NUL !in s

  /** The byte at index `i`, reading the terminator past the end of a
      sequence that stands for a terminated C string. */
  function At(s: seq<char>, i: nat): char
  {
    if i < |s| then s[i] else NUL
  }

  /** The C string stored at the start of `buf`: the bytes before the
      first NUL, or the whole buffer when it holds none. */
  function CStr(buf: seq<char>): (r: Text)
    ensures r <= buf
    ensures |r| < |buf| ==> buf[|r|] == NUL
  {
    if |buf| == 0 || buf[0] == NUL then [] else [buf[0]] + CStr(buf[1..])
  }

  /** `strlen`. */
  function StrLen(buf: seq<char>): nat
  {
    |CStr(buf)|
  }

  /** The C string of a buffer is determined by its two defining facts. */
  lemma {:induction false} CStrUnique(buf: seq<char>, p: Text)
    requires p <= buf
    requires |p| < |buf| ==> buf[|p|] == NUL
    ensures CStr(buf) == p
  {
    if |buf| != 0 && buf[0] != NUL {
      CStrUnique(buf[1..], p[1..]);
    }
  }

  /** A terminator at index `k` bounds the length of the string. */
  lemma CStrBefore(buf: seq<char>, k: nat)
    requires k < |buf| && buf[k] == NUL
    ensures StrLen(buf) <= k
  {
  }

  /** A NUL-free prefix of a buffer is a prefix of its C string. */
  lemma CStrPrefix(buf: seq<char>, p: Text)
    requires p <= buf
    ensures p <= CStr(buf)
  {
  }

  /** `strncmp(a, b, n) == 0`: the first `n` characters agree, where
      the comparison stops early at a terminator both strings share. */
  function StrNCmpZero(a: seq<char>, b: seq<char>, n: nat): bool
    decreases n
  {
    if n == 0 then true
    else if At(a, 0) != At(b, 0) then false
    else if At(a, 0) == NUL then true
    else StrNCmpZero(a[1..], b[1..], n - 1)
  }

  /** Comparing a terminated pattern over its own length against a buffer
      succeeds exactly when the pattern is a prefix of the buffer's C
      string: the idiom `strncmp(s, buf, strlen(s)) == 0`. */
  lemma {:induction false} StrNCmpPrefix(p: Text, buf: seq<char>)
    ensures StrNCmpZero(p, buf, |p|) <==> p <= CStr(buf)
  {
    if |p| != 0 && At(p, 0) == At(buf, 0) {
      assert p[0] in p;
      assert buf[0] == p[0] && buf[0] != NUL;
      assert CStr(buf) == [buf[0]] + CStr(buf[1..]);
      StrNCmpPrefix(p[1..], buf[1..]);
      assert p == [p[0]] + p[1..];
    }
  }

  /** `strstr(h, n) != NULL`: the needle occurs somewhere in the haystack,
      found by trying the positions from the left as `strstr` does. */
  function Occurs(h: Text, n: Text): bool
  {
    if n <= h then true
    else if |h| == 0 then false
    else Occurs(h[1..], n)
  }

  /** An occurrence, as an index. */
  ghost predicate OccursAt(h: seq<char>, n: seq<char>, i: int)
  {
    0 <= i && i + |n| <= |h| && h[i..i + |n|] == n
  }

  /** The search finds the needle exactly when it occurs at some index. */
  lemma {:induction false} OccursIff(h: Text, n: Text)
    ensures Occurs(h, n) <==> exists i :: OccursAt(h, n, i)
  {
    if n <= h {
      assert OccursAt(h, n, 0);
    } else if |h| != 0 {
      OccursIff(h[1..], n);
      if exists i :: OccursAt(h[1..], n, i) {
        var i :| OccursAt(h[1..], n, i);
        assert h[i + 1..i + 1 + |n|] == h[1..][i..i + |n|];
        assert OccursAt(h, n, i + 1);
      }
      if exists i :: OccursAt(h, n, i) {
        var i :| OccursAt(h, n, i);
        if i != 0 {
          assert h[1..][i - 1..i - 1 + |n|] == h[i..i + |n|];
          assert OccursAt(h[1..], n, i - 1);
        }
      }
    }
  }

  /** A prefix is an occurrence, so a prefix test implies a substring test. */
  lemma PrefixOccurs(h: Text, n: Text)
    requires n <= h
    ensures Occurs(h, n)
  {
  }

  /** `memcmp(buf + off, pat, |pat|) == 0`: raw bytes, blind to NUL. */
  function MemEq(buf: seq<char>, off: nat, pat: seq<char>): bool
    requires off + |pat| <= |buf|
  {
    buf[off..off + |pat|] == pat
  }

  /** A raw comparison with a NUL-free pattern fails when the buffer has a
      terminator inside the compared window; so whatever lies past a
      string's terminator only matters when the window reaches past it. */
  lemma MemEqStopsAtNul(buf: seq<char>, off: nat, pat: Text, i: nat)
    requires off + |pat| <= |buf|
    requires off <= i < off + |pat|
    requires buf[i] == NUL
    ensures !MemEq(buf, off, pat)
  {
  }

  /** At offset 0 a raw comparison with a NUL-free pattern is a prefix
      test on the buffer's C string, independent of the bytes after it. */
  lemma MemEqAtStart(buf: seq<char>, pat: Text)
    requires |pat| <= |buf|
    ensures MemEq(buf, 0, pat) <==> pat <= CStr(buf)
  {
    if MemEq(buf, 0, pat) {
      CStrPrefix(buf, pat);
    }
  }

  /** `strcmp(a, b) == 0`. */
  predicate StrEq(a: seq<char>, b: seq<char>)
  {
    CStr(a) == CStr(b)
  }

  /** `strncpy` of a terminated string into a buffer of `size` bytes
      followed by `buf[size - 1] = 0`, as the PROGMEM wrappers do: at most
      `size - 1` characters survive. */
  function Truncate(s: Text, n: nat): (r: Text)
    ensures r <= s
    ensures |r| == if |s| <= n then |s| else n
  {
    if |s| <= n then s else s[..n]
  }

  /** A zero-filled buffer. */
  function Zeros(n: nat): (r: seq<char>)
    ensures |r| == n
    ensures forall i :: 0 <= i < n ==> r[i] == NUL
  {
    seq(n, _ => NUL)
  }
}
