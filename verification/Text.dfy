/** C strings and lines of text. Bytes are modelled as characters. */
module Text {

  /** What C sees of a buffer: everything before the first NUL. */
  function CStr(s: string): (t: string)
    ensures |t| <= |s| && t == s[..|t|] && '\0' !in t
    ensures |t| < |s| ==> s[|t|] == '\0'
  {
    if s == "" || s[0] == '\0' then "" else [s[0]] + CStr(s[1..])
  }

  lemma {:induction false} CStrAt(s: string, n: nat)
    requires n < |s| && s[n] == '\0' && '\0' !in s[..n]
    ensures CStr(s) == s[..n]
  {
    if n > 0 {
      assert s[0] in s[..n];
      assert s[1..][..n - 1] == s[..n][1..];
      CStrAt(s[1..], n - 1);
    }
  }

  lemma {:induction false} CStrBefore(s: string, n: nat)
    requires n < |s| && s[n] == '\0'
    ensures |CStr(s)| <= n
  {
    if n > 0 {
      CStrBefore(s[1..], n - 1);
    }
  }

  lemma {:induction false} CStrWhole(s: string)
    requires '\0' !in s
    ensures CStr(s) == s
  {
    if s != "" {
      CStrWhole(s[1..]);
    }
  }

  /** strlen from position from on. */
  method StrLen(a: array<char>, from: nat, ghost n: nat) returns (len: nat)
    requires from + n < a.Length && a[from + n] == '\0' && '\0' !in a[from..from + n]
    ensures len == n
  {
    ghost var s := a[from..from + n];
    assert forall k :: 0 <= k < n ==> a[from + k] == s[k] && s[k] in s;
    len := 0;
    while a[from + len] != '\0'
      invariant 0 <= len <= n
      decreases n - len
    {
      len := len + 1;
    }
  }

  /** The C string at the start of a buffer. */
  method FromBuffer(a: array<char>, ghost n: nat) returns (s: string)
    requires n < a.Length && a[n] == '\0'
    ensures s == CStr(a[..]) == CStr(a[..n])
  {
    var len := 0;
    while a[len] != '\0'
      invariant 0 <= len <= n && '\0' !in a[..len]
      decreases n - len
    {
      len := len + 1;
    }
    CStrAt(a[..], len);
    if len < n {
      CStrAt(a[..n], len);
    } else {
      CStrWhole(a[..n]);
    }
    assert a[..n][..len] == a[..len] == a[..][..len];
    s := a[..len];
  }

  function Lower(c: char): char {
    if 'A' <= c <= 'Z' then c - 'A' + 'a' else c
  }

  /** Two characters are the same letter in either case, or the same. */
  lemma {:induction false} SameLetter(a: char, b: char)
    ensures Lower(a) == Lower(b) <==>
            a == b || ('A' <= a <= 'Z' && b as int == a as int + 32) || ('A' <= b <= 'Z' && a as int == b as int + 32)
  {
  }

  /** strncasecmp(s, p, strlen(p)) == 0 */
  predicate HasPrefix(s: string, p: string) {
    if p == "" then true
    else s != "" && Lower(s[0]) == Lower(p[0]) && HasPrefix(s[1..], p[1..])
  }

  lemma {:induction false} PrefixAt(s: string, p: string)
    ensures HasPrefix(s, p) <==> |p| <= |s| && forall i :: 0 <= i < |p| ==> Lower(s[i]) == Lower(p[i])
  {
    if p != "" && s != "" {
      PrefixAt(s[1..], p[1..]);
      if HasPrefix(s, p) {
        forall i | 0 <= i < |p|
          ensures Lower(s[i]) == Lower(p[i])
        {
          if i > 0 {
            assert s[i] == s[1..][i - 1] && p[i] == p[1..][i - 1];
          }
        }
      }
      if |p| <= |s| && forall i :: 0 <= i < |p| ==> Lower(s[i]) == Lower(p[i]) {
        forall i | 0 <= i < |p| - 1
          ensures Lower(s[1..][i]) == Lower(p[1..][i])
        {
          assert s[1..][i] == s[i + 1] && p[1..][i] == p[i + 1];
        }
        assert Lower(s[0]) == Lower(p[0]);
      }
    }
  }

  lemma {:induction false} PrefixExtends(p: string, t: string)
    ensures HasPrefix(p + t, p)
  {
    if p != "" {
      assert (p + t)[1..] == p[1..] + t;
      PrefixExtends(p[1..], t);
    }
  }

  function Concat(lines: seq<string>): string {
    if lines == [] then "" else lines[0] + Concat(lines[1..])
  }

  lemma {:induction false} ConcatAppend(a: seq<string>, b: seq<string>)
    ensures Concat(a + b) == Concat(a) + Concat(b)
  {
    if a == [] {
      assert a + b == b;
    } else {
      assert (a + b)[1..] == a[1..] + b;
      ConcatAppend(a[1..], b);
    }
  }

  /** One line with its line feed. */
  predicate IsLine(l: string) {
    l != "" && l[|l| - 1] == '\n' && '\n' !in l[..|l| - 1]
  }

  predicate AreLines(lines: seq<string>) {
    forall i :: 0 <= i < |lines| ==> IsLine(lines[i])
  }

  /** Length of the first piece of s: through its first line feed, or all of s, but no more
      than limit characters. */
  function Cut(s: string, limit: nat): (n: nat)
    ensures n <= |s| && n <= limit
    ensures '\n' !in s[..n] || (0 < n && s[n - 1] == '\n' && '\n' !in s[..n - 1])
    ensures n < |s| && n < limit ==> 0 < n && s[n - 1] == '\n'
    ensures 0 < |s| && 0 < limit ==> 0 < n
  {
    if s == "" || limit == 0 then 0
    else if s[0] == '\n' then 1
    else
      var n := 1 + Cut(s[1..], limit - 1);
      assert s[..n] == [s[0]] + s[1..][..n - 1];
      n
  }

  lemma {:induction false} CutIs(s: string, limit: nat, n: nat)
    requires n <= |s| && n <= limit
    requires if 0 < n && s[n - 1] == '\n' then '\n' !in s[..n - 1] else '\n' !in s[..n] && (n == |s| || n == limit)
    ensures Cut(s, limit) == n
  {
    if n > 0 {
      assert s[..n][0] == s[0];
    }
    if n > 1 {
      assert s[..n - 1][0] == s[0];
    }
    if n > 0 && s[0] != '\n' {
      assert forall i :: 0 <= i < n - 1 ==> s[1..][i] == s[i + 1];
      CutIs(s[1..], limit - 1, n - 1);
    }
  }

  lemma {:induction false} CutLine(l: string, rest: string, limit: nat)
    requires IsLine(l) && |l| <= limit
    ensures Cut(l + rest, limit) == |l| && (l + rest)[..|l|] == l && (l + rest)[|l|..] == rest
  {
    assert (l + rest)[..|l| - 1] == l[..|l| - 1];
    CutIs(l + rest, limit, |l|);
  }
}
