/** Vocabulary shared by every module: error results and C-string comparison. */
module Base {

  datatype Option<+T> = None | Some(value: T)

  /** The error codes the code returns (negated) by name; Os carries the errno of a failed
      system call, Fault stands for a null dereference inside the kernel. */
  datatype Errno =
    | ENXIO
    | ENOEXEC
    | ENOMEM
    | EBUSY
    | ENODEV
    | EINVAL
    | ENOSPC
    | EBADSLT
    | EOVERFLOW
    | ETIMEDOUT
    | Os(code: int)
    | Fault

  datatype Result<+T> = Ok(value: T) | Err(error: Errno)

  const MAX_STR_LEN: nat := 256

  /** What strncmp, strnlen and memcpy with a 256 byte bound see of a NUL-free string. */
  function Clip(s: string): string {
    if |s| > MAX_STR_LEN then s[..MAX_STR_LEN] else s
  }

  predicate SameName(a: string, b: string) {
    Clip(a) == Clip(b)
  }

  /** What strncmp decides by looking at n characters at most, an end counting as one. */
  predicate EqualUpTo(a: string, b: string, n: nat) {
    n == 0 || (if a == "" || b == "" then a == b else a[0] == b[0] && EqualUpTo(a[1..], b[1..], n - 1))
  }

  lemma {:induction false} EqualUpToMeansPrefixes(a: string, b: string, n: nat)
    ensures EqualUpTo(a, b, n) <==> (if |a| > n then a[..n] else a) == (if |b| > n then b[..n] else b)
  {
    if n > 0 && a != "" && b != "" {
      EqualUpToMeansPrefixes(a[1..], b[1..], n - 1);
      var c, d := if |a| > n then a[..n] else a, if |b| > n then b[..n] else b;
      assert c == [a[0]] + c[1..] && d == [b[0]] + d[1..];
      assert |a| > n ==> c[1..] == a[1..][..n - 1];
      assert |b| > n ==> d[1..] == b[1..][..n - 1];
    }
  }

  /** Names are compared character by character, on 256 of them. */
  lemma SameNameIsStrncmp(a: string, b: string)
    ensures SameName(a, b) <==> EqualUpTo(a, b, 256)
    ensures |Clip(a)| <= 256 && SameName(Clip(a), a)
  {
    EqualUpToMeansPrefixes(a, b, 256);
  }
}
