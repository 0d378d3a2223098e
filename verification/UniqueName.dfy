/** The name "group.device.instance" a device is registered under. */
module UniqueName {
  import opened Decimal

  function UniqueName(group: string, name: string, instance: int): string {
    group + "." + name + "." + ToString(instance)
  }

  predicate DotFree(s: string) {
    '.' !in s
  }

  /** Group, device name and decimal instance, with dots between. */
  lemma PartsOfUniqueName(g: string, n: string, i: int)
    ensures var u, dot := UniqueName(g, n, i), |g| + 1 + |n|;
            && |u| > dot && u[..|g|] == g && u[|g|] == '.' && u[|g| + 1..dot] == n && u[dot] == '.'
            && u[dot + 1..] == ToString(i)
  {
  }

  /** Splitting at the first occurrence of a separator is unambiguous. */
  lemma HeadsAgree(a: string, b: string, c: string, d: string, sep: char)
    requires sep !in a && sep !in c && a + [sep] + b == c + [sep] + d
    ensures a == c && b == d
  {
    var whole := a + [sep] + b;
    assert forall k | 0 <= k < |a| :: whole[k] == a[k];
    assert forall k | 0 <= k < |c| :: whole[k] == c[k];
    assert whole[|a|] == sep && whole[|c|] == sep;
    assert whole[..|a|] == a && whole[..|c|] == c;
    assert whole[|a| + 1..] == b && whole[|c| + 1..] == d;
  }

  /** So is splitting at the last one. */
  lemma TailsAgree(a: string, b: string, c: string, d: string, sep: char)
    requires sep !in b && sep !in d && a + [sep] + b == c + [sep] + d
    ensures a == c && b == d
  {
    var whole := a + [sep] + b;
    assert forall k | |a| < k < |whole| :: whole[k] == b[k - |a| - 1];
    assert forall k | |c| < k < |whole| :: whole[k] == d[k - |c| - 1];
    assert whole[|a|] == sep && whole[|c|] == sep;
    assert whole[..|a|] == a && whole[..|c|] == c;
    assert whole[|a| + 1..] == b && whole[|c| + 1..] == d;
  }

  /** Devices whose groups contain no '.' get different names unless they agree in group,
      device name and instance. */
  lemma UniqueNameInjective(g: string, n: string, i: int, g': string, n': string, i': int)
    requires DotFree(g) && DotFree(g') && IsInt32(i) && IsInt32(i')
    requires UniqueName(g, n, i) == UniqueName(g', n', i')
    ensures g == g' && n == n' && i == i'
  {
    var rest, rest' := n + "." + ToString(i), n' + "." + ToString(i');
    UniqueNameParts(g, n, i);
    UniqueNameParts(g', n', i');
    HeadsAgree(g, rest, g', rest', '.');
    TailsAgree(n, ToString(i), n', ToString(i'), '.');
    StoiRoundTrip(i);
    StoiRoundTrip(i');
  }

  lemma UniqueNameParts(g: string, n: string, i: int)
    ensures UniqueName(g, n, i) == g + ['.'] + (n + "." + ToString(i))
  {
  }

  /** No other triple at all yields the name of this one. */
  ghost predicate Unambiguous(g: string, n: string, i: int) {
    forall g', n', i' | IsInt32(i') && UniqueName(g', n', i') == UniqueName(g, n, i) :: g' == g && n' == n && i' == i
  }

  /** The restriction on dots cannot be dropped: a name is ambiguous as soon as its group or
      its device name contains one. */
  lemma UnambiguousMeansDotFree(g: string, n: string, i: int)
    requires IsInt32(i)
    ensures Unambiguous(g, n, i) <==> DotFree(g) && DotFree(n)
  {
    if !DotFree(g) {
      DotInGroup(g, n, i);
    } else if !DotFree(n) {
      DotInName(g, n, i);
    } else {
      forall g', n', i' | IsInt32(i') && UniqueName(g', n', i') == UniqueName(g, n, i)
        ensures g' == g && n' == n && i' == i
      {
        NoDots(g, n, i, g', n', i');
      }
    }
  }

  lemma DotInGroup(g: string, n: string, i: int)
    requires IsInt32(i) && !DotFree(g)
    ensures !Unambiguous(g, n, i)
  {
    var k :| 0 <= k < |g| && g[k] == '.';
    var a, b := g[..k], g[k + 1..];
    assert g == a + "." + b;
    ShiftDot(a, b, n, i);
    assert UniqueName(a, b + "." + n, i) == UniqueName(g, n, i) && a != g;
  }

  lemma DotInName(g: string, n: string, i: int)
    requires IsInt32(i) && !DotFree(n)
    ensures !Unambiguous(g, n, i)
  {
    var k :| 0 <= k < |n| && n[k] == '.';
    var a, b := n[..k], n[k + 1..];
    assert n == a + "." + b;
    ShiftDot(g, a, b, i);
    assert UniqueName(g + "." + a, b, i) == UniqueName(g, n, i) && g + "." + a != g;
  }

  lemma NoDots(g: string, n: string, i: int, g': string, n': string, i': int)
    requires DotFree(g) && DotFree(n) && IsInt32(i) && IsInt32(i')
    requires UniqueName(g', n', i') == UniqueName(g, n, i)
    ensures g' == g && n' == n && i' == i
  {
    TailsAgree(g' + "." + n', ToString(i'), g + "." + n, ToString(i), '.');
    StoiRoundTrip(i);
    StoiRoundTrip(i');
    OneDot(g, n, g', n');
  }

  lemma ShiftDot(a: string, b: string, c: string, i: int)
    ensures UniqueName(a + "." + b, c, i) == UniqueName(a, b + "." + c, i)
  {
    assert a + "." + b + "." + c == a + "." + (b + "." + c);
  }

  /** A string with a single dot splits in one way only. */
  lemma OneDot(a: string, b: string, c: string, d: string)
    requires DotFree(a) && DotFree(b) && a + "." + b == c + "." + d
    ensures a == c && b == d
  {
    var whole := a + "." + b;
    assert forall k | 0 <= k < |a| :: whole[k] == a[k];
    assert forall k | |a| < k < |whole| :: whole[k] == b[k - |a| - 1];
    assert whole[|c|] == '.';
    assert whole[..|a|] == a && whole[..|c|] == c;
    assert whole[|a| + 1..] == b && whole[|c| + 1..] == d;
  }
}
