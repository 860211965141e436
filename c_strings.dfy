/**
 * The C string functions the SABFS code relies on, stated over Dafny
 * strings. A C string is represented by its characters without the
 * terminating NUL; the buffer holding it reads NUL from position |s| on.
 */
module CStrings {

  const NUL: char := '\0'

  /** A C string holds no NUL before its terminator. */
  predicate IsCString(s: string)
  {
    forall i :: 0 <= i < |s| ==> s[i] != NUL
  }

  /** Character i of the NUL-terminated buffer that holds s. */
  function CharAt(s: string, i: nat): char
  {
    if i < |s| then s[i] else NUL
  }

  /** p is a prefix of s. */
  predicate HasPrefix(s: string, p: string)
  {
    |p| <= |s| && s[..|p|] == p
  }

  /**
   * `strncmp(a + i, b + i, n - i) == 0`: the C loop that compares
   * position by position, stops at the first difference and stops early,
   * with equality, when both strings end.
   */
  function StrNEqFrom(a: string, b: string, i: nat, n: nat): (r: bool)
    ensures IsCString(a) && IsCString(b) ==>
      (r <==> forall j :: i <= j < n ==> CharAt(a, j) == CharAt(b, j))
    decreases n - i
  {
    if i >= n then true
    else if CharAt(a, i) != CharAt(b, i) then false
    else if CharAt(a, i) == NUL then true
    else StrNEqFrom(a, b, i + 1, n)
  }

  /** `strncmp(a, b, n) == 0`. */
  function StrNEq(a: string, b: string, n: nat): (r: bool)
    ensures IsCString(a) && IsCString(b) ==>
      (r <==> forall j :: 0 <= j < n ==> CharAt(a, j) == CharAt(b, j))
  {
    StrNEqFrom(a, b, 0, n)
  }

  lemma {:induction false} StrNEqFromPrefix(s: string, p: string, i: nat)
    requires IsCString(s) && IsCString(p)
    requires i <= |p| && i <= |s|
    requires s[..i] == p[..i]
    ensures StrNEqFrom(s, p, i, |p|) <==> HasPrefix(s, p)
    decreases |p| - i
  {
    if i < |p| {
      if i < |s| && s[i] == p[i] {
        assert s[..i + 1] == s[..i] + [s[i]];
        assert p[..i + 1] == p[..i] + [p[i]];
        StrNEqFromPrefix(s, p, i + 1);
      }
    }
  }

  /**
   * For a C string p, `strncmp(s, p, strlen(p)) == 0` holds exactly when
   * p is a prefix of s: how the SABFS code tests for "/pack" and
   * "/mnt/pvfs/".
   */
  lemma StrNCmpIsPrefix(s: string, p: string)
    requires IsCString(s) && IsCString(p)
    ensures StrNEq(s, p, |p|) <==> HasPrefix(s, p)
  {
    StrNEqFromPrefix(s, p, 0);
  }

  /**
   * `strrchr(s, c) - s`, or -1 for NULL: the index of the last occurrence
   * of c in s.
   */
  function LastIndexOf(s: string, c: char): (r: int)
    ensures -1 <= r < |s|
    ensures r >= 0 ==> s[r] == c
    ensures forall j :: r < j < |s| ==> s[j] != c
  {
    if |s| == 0 then -1
    else if s[|s| - 1] == c then |s| - 1
    else LastIndexOf(s[..|s| - 1], c)
  }

  /**
   * What `snprintf(buf, cap, "%s", s)` or `strncpy(buf, s, cap - 1)` followed by
   * `buf[cap - 1] = 0` leaves in a buffer of cap bytes: at most cap - 1 characters.
   */
  function Truncated(s: string, cap: nat): (r: string)
    requires cap >= 1
    ensures |r| < cap
    ensures HasPrefix(s, r)
    ensures |s| < cap ==> r == s
  {
    if |s| < cap then s else s[..cap - 1]
  }
}
