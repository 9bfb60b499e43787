/** String helpers of the core library. */
module Core {
  import opened Text

  // ---------------------------------------------------------------- strip

  predicate IsSpace(c: char) {
    c == ' ' || c == '\t' || c == '\n' || c == '\r' || c == '\U{000B}' || c == '\U{000C}'
  }

  predicate AllSpace(s: string) {
    forall i :: 0 <= i < |s| ==> IsSpace(s[i])
  }

  /** Neither end is white space. */
  predicate Trimmed(s: string) {
    s == "" || (!IsSpace(s[0]) && !IsSpace(s[|s| - 1]))
  }

  function TrimLeft(s: string): string {
    if s != "" && IsSpace(s[0]) then TrimLeft(s[1..]) else s
  }

  function TrimRight(s: string): string {
    if s != "" && IsSpace(s[|s| - 1]) then TrimRight(s[..|s| - 1]) else s
  }

  function Strip(s: string): string {
    TrimRight(TrimLeft(s))
  }

  /** White space in the C locale: space, and the characters from tab to carriage return. */
  lemma {:induction false} SpaceIs(c: char)
    ensures IsSpace(c) <==> c as int == 32 || 9 <= c as int <= 13
  {
  }

  lemma {:induction false} TrimLeftAt(a: string, t: string)
    requires AllSpace(a) && (t == "" || !IsSpace(t[0]))
    ensures TrimLeft(a + t) == t
  {
    if a == "" {
      assert a + t == t;
    } else {
      assert (a + t)[1..] == a[1..] + t;
      TrimLeftAt(a[1..], t);
    }
  }

  lemma {:induction false} TrimRightAt(t: string, b: string)
    requires AllSpace(b) && (t == "" || !IsSpace(t[|t| - 1]))
    ensures TrimRight(t + b) == t
  {
    if b == "" {
      assert t + b == t;
    } else {
      assert (t + b)[..|t + b| - 1] == t + b[..|b| - 1];
      TrimRightAt(t, b[..|b| - 1]);
    }
  }

  /** The one string left when white space is taken off both ends. */
  lemma {:induction false} StripIs(a: string, t: string, b: string)
    requires AllSpace(a) && AllSpace(b) && Trimmed(t) && (t == "" ==> b == "")
    ensures Strip(a + t + b) == t
  {
    assert a + t + b == a + (t + b);
    TrimLeftAt(a, t + b);
    TrimRightAt(t, b);
  }

  lemma {:induction false} TrimLeftParts(s: string) returns (a: string)
    ensures s == a + TrimLeft(s) && AllSpace(a)
    ensures TrimLeft(s) == "" || !IsSpace(TrimLeft(s)[0])
  {
    if s != "" && IsSpace(s[0]) {
      a := TrimLeftParts(s[1..]);
      a := [s[0]] + a;
    } else {
      a := "";
    }
  }

  lemma {:induction false} TrimRightParts(s: string) returns (b: string)
    ensures s == TrimRight(s) + b && AllSpace(b)
    ensures TrimRight(s) == "" || !IsSpace(TrimRight(s)[|TrimRight(s)| - 1])
  {
    if s != "" && IsSpace(s[|s| - 1]) {
      b := TrimRightParts(s[..|s| - 1]);
      assert s == s[..|s| - 1] + [s[|s| - 1]];
      b := b + [s[|s| - 1]];
    } else {
      b := "";
    }
  }

  /** Stripping removes white space only, and all of it. */
  lemma {:induction false} StripParts(s: string) returns (a: string, b: string)
    ensures s == a + Strip(s) + b && AllSpace(a) && AllSpace(b) && Trimmed(Strip(s))
    ensures Strip(Strip(s)) == Strip(s)
  {
    a := TrimLeftParts(s);
    b := TrimRightParts(TrimLeft(s));
    assert s == a + (Strip(s) + b);
    if Strip(s) != "" {
      assert TrimLeft(s)[0] == Strip(s)[0];
    }
    assert "" + Strip(s) + "" == Strip(s);
    StripIs("", Strip(s), "");
  }

  lemma {:induction false} StripSlice(s: string, start: nat, end: nat)
    requires start <= end <= |s| && AllSpace(s[..start]) && AllSpace(s[end..])
    requires Trimmed(s[start..end]) && (start == end ==> end == |s|)
    ensures Strip(s) == s[start..end]
  {
    assert s == s[..start] + s[start..end] + s[end..];
    StripIs(s[..start], s[start..end], s[end..]);
  }

  /** Strips a C string in place. */
  method StrStrip(s: array<char>, ghost n: nat)
    requires n < s.Length && s[n] == '\0' && '\0' !in s[..n]
    modifies s
    ensures CStr(s[..]) == Strip(old(s[..n]))
  {
    hide Strip;
    ghost var before := s[..n];
    var start, end := Ends(s, n);
    ghost var kept := s[start..end];
    assert forall k :: 0 <= k < |kept| ==> kept[k] == before[start + k] && kept[k] in before;
    MoveToFront(s, start, end);
    assert s[..][..end - start] == s[..end - start] == kept;
    CStrAt(s[..], end - start);
  }

  /** The first character to keep and the end of what is kept. */
  method Ends(s: array<char>, ghost n: nat) returns (start: nat, end: nat)
    requires n < s.Length && s[n] == '\0' && '\0' !in s[..n]
    ensures start <= end <= n && Strip(s[..n]) == s[start..end]
  {
    hide Strip, IsSpace;
    ghost var before := s[..n];
    assert forall k :: 0 <= k < n ==> s[k] == before[k] && s[k] in before;
    assert s[0..0 + n] == before;
    end := StrLen(s, 0, n);
    start := 0;
    while s[start] != '\0' && IsSpace(s[start])
      invariant 0 <= start <= n && forall k :: 0 <= k < start ==> IsSpace(before[k])
      decreases n - start
    {
      start := start + 1;
    }
    if s[start] != '\0' {
      end := TrimEnd(s, start, end);
    }
    StripSlice(before, start, end);
    assert before[start..end] == s[start..end];
  }

  /** Walks back from the end over white space. */
  method TrimEnd(s: array<char>, start: nat, n: nat) returns (end: nat)
    requires start < n < s.Length && !IsSpace(s[start])
    ensures start < end <= n && !IsSpace(s[end - 1]) && forall k :: end <= k < n ==> IsSpace(s[k])
  {
    hide IsSpace;
    end := n;
    while end > 0 && IsSpace(s[end - 1])
      invariant start < end <= n && forall k :: end <= k < n ==> IsSpace(s[k])
    {
      end := end - 1;
    }
  }

  method MoveToFront(s: array<char>, start: nat, end: nat)
    requires start <= end < s.Length
    modifies s
    ensures s[..end - start] == old(s[start..end]) && s[end - start] == '\0'
  {
    Memmove(s, 0, start, end - start);
    s[end - start] := '\0';
  }

  method Memmove(s: array<char>, to: nat, from: nat, n: nat)
    requires to + n <= s.Length && from + n <= s.Length
    modifies s
    ensures s[to..to + n] == old(s[from..from + n])
    ensures s[..to] == old(s[..to]) && s[to + n..] == old(s[to + n..])
  {
    forall k | 0 <= k < n {
      s[to + k] := s[from + k];
    }
  }

  // ---------------------------------------------------------------- split

  /** Length of the part of s before the first separator. */
  function Span(s: string, sep: string): (n: nat)
    ensures n <= |s|
    ensures forall i :: 0 <= i < n ==> s[i] !in sep
    ensures n < |s| ==> s[n] in sep
  {
    if s == "" || s[0] in sep then 0 else 1 + Span(s[1..], sep)
  }

  lemma {:induction false} SpanAt(s: string, sep: string, n: nat)
    requires n <= |s| && (forall i :: 0 <= i < n ==> s[i] !in sep) && (n < |s| ==> s[n] in sep)
    ensures Span(s, sep) == n
  {
    if n > 0 {
      SpanAt(s[1..], sep, n - 1);
    }
  }

  function Tokens(s: string, sep: string): (t: seq<string>)
    ensures |t| >= 1
    decreases |s|
  {
    var n := Span(s, sep);
    if n == |s| then [s] else [s[..n]] + Tokens(s[n + 1..], sep)
  }

  /** Splits at every separator; the cursor is gone after the last token. */
  method StrSplit(s: string, sep: string) returns (sl: seq<string>)
    ensures sl == Tokens(s, sep)
  {
    hide Tokens;
    sl := [];
    var cp, more := 0, true;
    assert s[0..] == s && [] + Tokens(s, sep) == Tokens(s, sep);
    while more
      invariant 0 <= cp <= |s|
      invariant Tokens(s, sep) == sl + if more then Tokens(s[cp..], sep) else []
      decreases more, |s| - cp
    {
      var rest := s[cp..];
      var n := Span(rest, sep);
      FirstToken(rest, sep);
      if n == |rest| {
        sl := sl + [rest];
        more := false;
        assert sl + [] == sl;
      } else {
        ghost var later := Tokens(rest[n + 1..], sep);
        assert rest[n + 1..] == s[cp + n + 1..];
        assert sl + ([rest[..n]] + later) == (sl + [rest[..n]]) + later;
        sl := sl + [rest[..n]];
        cp := cp + n + 1;
      }
    }
    assert sl + [] == sl;
  }

  lemma {:induction false} FirstToken(s: string, sep: string)
    ensures var n := Span(s, sep);
            Tokens(s, sep) == if n == |s| then [s] else [s[..n]] + Tokens(s[n + 1..], sep)
  {
    hide Span;
  }

  function Join(tokens: seq<string>, c: char): string
    requires tokens != []
  {
    if |tokens| == 1 then tokens[0] else tokens[0] + [c] + Join(tokens[1..], c)
  }

  lemma {:induction false} JoinCons(token: string, later: seq<string>, c: char)
    ensures Join([token], c) == token
    ensures later != [] ==> Join([token] + later, c) == token + [c] + Join(later, c)
  {
    assert ([token] + later)[1..] == later;
  }

  lemma {:induction false} InOne(x: char, c: char)
    ensures x in [c] <==> x == c
  {
  }

  lemma {:induction false} SpanLacks(s: string, c: char)
    ensures c !in s[..Span(s, [c])]
    ensures var n := Span(s, [c]); n < |s| ==> s == s[..n] + [c] + s[n + 1..]
  {
    hide Span;
    var n := Span(s, [c]);
    var sep := [c];
    assert n < |s| ==> s[n] in sep;
    forall i | 0 <= i < n
      ensures s[i] != c
    {
      assert s[i] !in sep;
      InOne(s[i], c);
    }
    if n < |s| {
      InOne(s[n], c);
      assert s == s[..n] + [s[n]] + s[n + 1..];
    }
  }

  /** Splitting at one character loses nothing and leaves it in no token. */
  lemma {:induction false} SplitJoins(s: string, c: char)
    ensures Join(Tokens(s, [c]), c) == s
    ensures forall i :: 0 <= i < |Tokens(s, [c])| ==> c !in Tokens(s, [c])[i]
    decreases |s|
  {
    hide Span, Tokens, Join;
    var n := Span(s, [c]);
    FirstToken(s, [c]);
    SpanLacks(s, c);
    assert s[..|s|] == s;
    if n < |s| {
      SplitJoins(s[n + 1..], c);
      JoinCons(s[..n], Tokens(s[n + 1..], [c]), c);
    } else {
      JoinCons(s, [], c);
    }
  }

  // ---------------------------------------------------------------- expand

  datatype Expansion =
    | Expanded(text: string, count: nat)
    | NoDomain
    | BadDirective

  function Prepend(text: string, count: nat, e: Expansion): Expansion {
    if e.Expanded? then Expanded(text + e.text, count + e.count) else e
  }

  /** What a directive stands for. */
  datatype Directive = Insert(text: string) | Missing | Unknown

  function Meaning(c: char, addr: string, parts: seq<string>): Directive
    requires parts != []
  {
    if c == 's' then Insert(addr)
    else if c == 'u' then Insert(parts[0])
    else if c == 'd' then (if |parts| < 2 then Missing else Insert(parts[1]))
    else Unknown
  }

  /** Single-pass substitution: text before a directive is copied, the directive is replaced,
      and only what follows it in the format is looked at again. */
  function Expand(format: string, addr: string, parts: seq<string>): Expansion
    requires parts != []
  {
    if format == "" then Expanded("", 0)
    else if format[0] != '%' then Prepend([format[0]], 0, Expand(format[1..], addr, parts))
    else if |format| == 1 then BadDirective
    else
      match Meaning(format[1], addr, parts)
      case Insert(text) => Prepend(text, 1, Expand(format[2..], addr, parts))
      case Missing => NoDomain
      case Unknown => BadDirective
  }

  lemma {:induction false} PrependTwice(a: string, m: nat, b: string, n: nat, e: Expansion)
    ensures Prepend(a, m, Prepend(b, n, e)) == Prepend(a + b, m + n, e)
  {
    if e.Expanded? {
      assert a + (b + e.text) == (a + b) + e.text;
    }
  }

  /** A format that expands contributes its text and its directives, whatever follows it; so
      inserted text is never scanned, and the first bad directive decides the error. */
  lemma {:induction false} ExpandConcat(f: string, g: string, addr: string, parts: seq<string>)
    requires parts != [] && Expand(f, addr, parts).Expanded?
    ensures var e := Expand(f, addr, parts);
            Expand(f + g, addr, parts) == Prepend(e.text, e.count, Expand(g, addr, parts))
    decreases |f|
  {
    var rest := Expand(g, addr, parts);
    if f == "" {
      assert f + g == g;
      if rest.Expanded? { assert "" + rest.text == rest.text; }
    } else if f[0] != '%' {
      assert (f + g)[1..] == f[1..] + g;
      ExpandConcat(f[1..], g, addr, parts);
      var e := Expand(f[1..], addr, parts);
      PrependTwice([f[0]], 0, e.text, e.count, rest);
    } else {
      assert (f + g)[2..] == f[2..] + g && (f + g)[1] == f[1];
      ExpandConcat(f[2..], g, addr, parts);
      var e := Expand(f[2..], addr, parts);
      PrependTwice(Meaning(f[1], addr, parts).text, 1, e.text, e.count, rest);
    }
  }

  /** A directive on its own expands to its meaning. */
  lemma {:induction false} DirectiveExpands(c: char, addr: string, parts: seq<string>)
    requires parts != []
    ensures Expand(['%', c], addr, parts) ==
            match Meaning(c, addr, parts)
            case Insert(text) => Expanded(text, 1)
            case Missing => NoDomain
            case Unknown => BadDirective
    ensures c == 's' ==> Expand(['%', c], addr, parts) == Expanded(addr, 1)
    ensures c == 'u' ==> Expand(['%', c], addr, parts) == Expanded(parts[0], 1)
    ensures c == 'd' ==> Expand(['%', c], addr, parts) == if |parts| < 2 then NoDomain else Expanded(parts[1], 1)
    ensures c !in "sud" ==> Expand(['%', c], addr, parts) == BadDirective
    ensures Expand("%", addr, parts) == BadDirective
  {
    assert Expand([], addr, parts) == Expanded("", 0);
    if Meaning(c, addr, parts).Insert? {
      assert Meaning(c, addr, parts).text + "" == Meaning(c, addr, parts).text;
    }
  }

  /** What the two parts of an address are. */
  lemma {:induction false} AddressParts(u: string, rest: string)
    requires '@' !in u
    ensures Tokens(u + "@" + rest, "@") == [u] + Tokens(rest, "@")
    ensures Tokens(u, "@") == [u]
  {
    var addr := u + "@" + rest;
    assert forall i :: 0 <= i < |u| ==> addr[i] == u[i] && u[i] in u;
    AtOnly(u);
    AtOnly(addr[..|u|]);
    SpanAt(addr, "@", |u|);
    SpanAt(u, "@", |u|);
    hide Span, Tokens;
    FirstToken(addr, "@");
    FirstToken(u, "@");
    assert addr[..|u|] == u && addr[|u| + 1..] == rest;
  }

  lemma {:induction false} AtOnly(s: string)
    ensures forall i :: 0 <= i < |s| && s[i] != '@' ==> s[i] !in "@"
  {
  }

  lemma {:induction false} PartsCount(addr: string)
    ensures |Tokens(addr, "@")| >= 2 <==> '@' in addr
  {
    assert "@" == ['@'];
    SpanLacks(addr, '@');
    FirstToken(addr, "@");
    hide Tokens, Span;
    assert addr[..|addr|] == addr;
  }

  /** %s stands for the address, %u for what is in front of its first at sign, or all of it, and
      %d for what is behind that, up to the next one; without one %d is an error, and so is any
      other directive. */
  lemma {:induction false} DirectivesMean(addr: string, u: string, d: string, c: char)
    requires '@' !in u && '@' !in d
    ensures Expand("%s", addr, Tokens(addr, "@")) == Expanded(addr, 1)
    ensures var both := u + "@" + d;
            Expand("%u", both, Tokens(both, "@")) == Expanded(u, 1) && Expand("%d", both, Tokens(both, "@")) == Expanded(d, 1)
    ensures Expand("%u", u, Tokens(u, "@")) == Expanded(u, 1)
    ensures Expand("%d", addr, Tokens(addr, "@")) == NoDomain <==> '@' !in addr
    ensures c != 's' && c != 'u' && c != 'd' ==> Expand(['%', c], addr, Tokens(addr, "@")) == BadDirective
    ensures Expand("%", addr, Tokens(addr, "@")) == BadDirective
  {
    hide Expand, Tokens, Meaning;
    var both := u + "@" + d;
    AddressParts(u, d);
    AddressParts(d, "");
    PartsCount(addr);
    DirectiveExpands('s', addr, Tokens(addr, "@"));
    DirectiveExpands('d', addr, Tokens(addr, "@"));
    DirectiveExpands('u', both, Tokens(both, "@"));
    DirectiveExpands('d', both, Tokens(both, "@"));
    DirectiveExpands('u', u, Tokens(u, "@"));
    DirectiveExpands(c, addr, Tokens(addr, "@"));
    assert "%s" == ['%', 's'] && "%u" == ['%', 'u'] && "%d" == ['%', 'd'];
  }

  /** Further at signs end the domain. */
  lemma {:induction false} DomainEnds(u: string, d: string, more: string)
    requires '@' !in u && '@' !in d
    ensures var addr := u + "@" + (d + "@" + more);
            Expand("%u", addr, Tokens(addr, "@")) == Expanded(u, 1) && Expand("%d", addr, Tokens(addr, "@")) == Expanded(d, 1)
  {
    hide Expand, Tokens, Meaning;
    var rest := d + "@" + more;
    AddressParts(u, rest);
    AddressParts(d, more);
    DirectiveExpands('u', u + "@" + rest, Tokens(u + "@" + rest, "@"));
    DirectiveExpands('d', u + "@" + rest, Tokens(u + "@" + rest, "@"));
    assert "%u" == ['%', 'u'] && "%d" == ['%', 'd'];
  }

  /** Behind a good front, the first bad directive decides, whatever follows it. */
  lemma {:induction false} FirstBadDecides(f: string, c: char, g: string, addr: string, parts: seq<string>)
    requires parts != [] && Expand(f, addr, parts).Expanded? && !Meaning(c, addr, parts).Insert?
    ensures Expand(f + (['%', c] + g), addr, parts) == if Meaning(c, addr, parts).Missing? then NoDomain else BadDirective
    ensures Expand(f + "%", addr, parts) == BadDirective
  {
    ExpandConcat(f, ['%', c] + g, addr, parts);
    ExpandConcat(f, "%", addr, parts);
  }

  lemma {:induction false} PlainText(f: string, addr: string, parts: seq<string>)
    requires parts != [] && '%' !in f
    ensures Expand(f, addr, parts) == Expanded(f, 0)
  {
    if f != "" {
      assert f[0] in f;
      PlainText(f[1..], addr, parts);
      assert [f[0]] + f[1..] == f;
    }
  }

  /** Every directive in front of the first bad one inserts at least two characters, so no
      reallocation shrinks the buffer below what is moved next. */
  predicate NeverShrinks(format: string, addr: string, parts: seq<string>)
    requires parts != []
  {
    if format == "" then true
    else if format[0] != '%' then NeverShrinks(format[1..], addr, parts)
    else if |format| == 1 then true
    else
      match Meaning(format[1], addr, parts)
      case Insert(text) => |text| >= 2 && NeverShrinks(format[2..], addr, parts)
      case _ => true
  }

  // ---------------------------------------------------------------- expand in place

  /** The string rest stands at offs, with its terminator. */
  ghost predicate Holds(out: array<char>, offs: nat, rest: string)
    reads out
  {
    offs + |rest| < out.Length && out[offs..offs + |rest|] == rest && out[offs + |rest|] == '\0' && '\0' !in rest
  }

  lemma {:induction false} HoldsTail(out: array<char>, offs: nat, rest: string, n: nat)
    requires Holds(out, offs, rest) && n <= |rest|
    ensures Holds(out, offs + n, rest[n..])
    ensures forall k :: 0 <= k <= |rest| ==> out[offs + k] == if k < |rest| then rest[k] else '\0'
    ensures forall k :: 0 <= k < |rest| ==> rest[k] != '\0'
  {
    var s := out[offs..offs + |rest|];
    assert forall k :: 0 <= k < |rest| ==> rest[k] in rest;
    assert forall k :: 0 <= k < |rest| ==> out[offs + k] == s[k];
    assert forall c :: c in rest[n..] ==> c in rest;
    assert out[offs + n..offs + n + |rest[n..]|] == rest[n..];
  }

  /** realloc: a larger block holds the old bytes; a smaller one stays where it is. */
  method Realloc(out: array<char>, size: nat, ghost offs: nat, ghost rest: string) returns (r: array<char>)
    requires Holds(out, offs, rest)
    ensures r.Length >= size && (r == out || fresh(r))
    ensures Holds(r, offs, rest) && r[..offs] == old(out[..offs])
  {
    if size <= out.Length {
      r := out;
    } else {
      var bytes := out[..];
      r := new char[size](i => if 0 <= i < |bytes| then bytes[i] else '\0');
      assert r[..|bytes|] == bytes;
      assert r[offs..offs + |rest|] == bytes[offs..offs + |rest|];
    }
  }

  /** Moves the string at from, with its terminator, to position to; n is what was moved. */
  method MoveTail(r: array<char>, to: nat, from: nat, ghost later: string) returns (n: nat)
    requires Holds(r, from, later) && to + |later| < r.Length
    modifies r
    ensures n == |later| + 1
    ensures Holds(r, to, later) && r[..to] == old(r[..to])
  {
    var len := StrLen(r, from, |later|);
    assert r[from..from + len + 1] == later + ['\0'];
    n := len + 1;
    Memmove(r, to, from, n);
    assert r[to..to + len + 1][..len] == later && r[to..to + len + 1][len] == '\0';
  }

  /** Writes text in front of the string that stands behind it. */
  method Memcpy(r: array<char>, to: nat, text: string, ghost later: string)
    requires Holds(r, to + |text|, later)
    modifies r
    ensures r[..to + |text|] == old(r[..to]) + text
    ensures Holds(r, to + |text|, later)
  {
    forall k | 0 <= k < |text| {
      r[to + k] := text[k];
    }
  }

  /** Puts text in the place of the two characters at offs, in a block of `size` characters;
      `inside` tells whether the range that is moved lies in that block before and after. */
  method Replace(out: array<char>, offs: nat, ghost rest: string, text: string, size: nat)
    returns (r: array<char>, inside: bool)
    requires Holds(out, offs, rest) && |rest| >= 2 && size == offs + |rest| + 1 + |text| - 2
    modifies out
    ensures r == out || fresh(r)
    ensures Holds(r, offs + |text|, rest[2..])
    ensures r[..offs + |text|] == old(out[..offs]) + text
    ensures inside <==> offs + |rest| + 1 <= size
  {
    hide Holds;
    InsideBuffer(out, offs, rest);
    ghost var before := out[..offs];
    r := Realloc(out, size, offs, rest);
    HoldsTail(r, offs, rest, 2);
    assert r[..offs] == r[..offs + |text|][..offs];
    var n := MoveTail(r, offs + |text|, offs + 2, rest[2..]);
    inside := offs + 2 + n <= size && offs + |text| + n <= size;
    assert r[..offs] == r[..offs + |text|][..offs] == before;
    Memcpy(r, offs, text, rest[2..]);
  }

  /** The character behind a percent sign, or the terminator. */
  function Next(rest: string): char
    requires rest != ""
  {
    if |rest| == 1 then '\0' else rest[1]
  }

  /** One step of the expansion, by what stands at its head. */
  lemma {:induction false} ExpandStep(rest: string, addr: string, parts: seq<string>)
    requires parts != [] && rest != ""
    ensures rest[0] != '%' ==>
              Expand(rest, addr, parts) == Prepend([rest[0]], 0, Expand(rest[1..], addr, parts)) &&
              NeverShrinks(rest, addr, parts) == NeverShrinks(rest[1..], addr, parts)
    ensures rest[0] == '%' ==>
              match Meaning(Next(rest), addr, parts)
              case Insert(text) =>
                |rest| >= 2 && Expand(rest, addr, parts) == Prepend(text, 1, Expand(rest[2..], addr, parts)) &&
                (NeverShrinks(rest, addr, parts) <==> |text| >= 2 && NeverShrinks(rest[2..], addr, parts))
              case Missing => Expand(rest, addr, parts) == NoDomain && NeverShrinks(rest, addr, parts)
              case Unknown => Expand(rest, addr, parts) == BadDirective && NeverShrinks(rest, addr, parts)
  {
  }

  /** The switch over the directive: 0 with the text to insert, or the error code. */
  method Lookup(c: char, addr: string, parts: seq<string>, nelems: nat) returns (code: int, insert: string)
    requires parts != [] && nelems == |parts|
    ensures match Meaning(c, addr, parts)
            case Insert(text) => code == 0 && insert == text
            case Missing => code == -1
            case Unknown => code == -2
  {
    insert, code := "", 0;
    match c {
      case 's' => insert := addr;
      case 'u' => insert := parts[0];
      case 'd' =>
        if nelems < 2 {
          code := -1;
        } else {
          insert := parts[1];
        }
      case _ => code := -2;
    }
  }

  /** Substitution in a growing buffer. The result is the number of directives, -1 for a %d
      without a domain or -2 for an unknown directive; inBounds tells whether every move stays
      inside the block realloc returned. */
  method ExpandString(format: string, addr: string) returns (ret: int, buf: string, outSize: int, inBounds: bool)
    requires '\0' !in format && '\0' !in addr
    ensures var e := Expand(format, addr, Tokens(addr, "@"));
            match e
            case Expanded(text, count) => ret == count && buf == text && outSize == |text| + 1
            case NoDomain => ret == -1
            case BadDirective => ret == -2
    ensures inBounds <==> NeverShrinks(format, addr, Tokens(addr, "@"))
  {
    hide Expand, NeverShrinks, Tokens, Holds, Meaning;
    var parts := StrSplit(addr, "@");
    outSize := |format| + 1;
    var out := Duplicate(format);
    var offs: nat := 0;
    ret, buf, inBounds := 0, "", true;
    ghost var whole := Expand(format, addr, parts);
    ghost var done, rest := "", format;
    Unprefixed(whole);
    while out[offs] != '\0'
      invariant fresh(out) && Holds(out, offs, rest)
      invariant offs < out.Length && out[..offs] == done && 0 <= ret && outSize == offs + |rest| + 1
      invariant whole == Prepend(done, ret, Expand(rest, addr, parts))
      invariant NeverShrinks(format, addr, parts) <==> inBounds && NeverShrinks(rest, addr, parts)
      decreases |rest|
    {
      HeadOf(out, offs, rest);
      ExpandStep(rest, addr, parts);
      if out[offs] == '%' {
        var code, insert := Lookup(out[offs + 1], addr, parts, |parts|);
        if code != 0 {
          ret := code;
          return;
        }
        PrependTwice(done, ret, insert, 1, Expand(rest[2..], addr, parts));
        outSize := outSize + |insert| - 2;
        var inside: bool;
        out, inside := Replace(out, offs, rest, insert, outSize);
        inBounds := inBounds && inside;
        done, rest := done + insert, rest[2..];
        offs := offs + |insert|;
        ret := ret + 1;
      } else {
        PrependTwice(done, ret, [rest[0]], 0, Expand(rest[1..], addr, parts));
        HoldsTail(out, offs, rest, 1);
        assert out[..offs + 1] == out[..offs] + [rest[0]];
        done, rest := done + [rest[0]], rest[1..];
        offs := offs + 1;
      }
      InsideBuffer(out, offs, rest);
    }
    NothingLeft(out, offs, rest, addr, parts);
    assert done + "" == done;
    buf := out[..offs];
  }

  method Duplicate(format: string) returns (out: array<char>)
    requires '\0' !in format
    ensures fresh(out) && Holds(out, 0, format) && out.Length > 0
  {
    out := new char[|format| + 1](i => if 0 <= i < |format| then format[i] else '\0');
    assert out[0..0 + |format|] == format;
  }

  lemma {:induction false} InsideBuffer(out: array<char>, offs: nat, rest: string)
    requires Holds(out, offs, rest)
    ensures offs < out.Length
  {
  }

  /** A character that is not the terminator heads what is left. */
  lemma {:induction false} HeadOf(out: array<char>, offs: nat, rest: string)
    requires Holds(out, offs, rest) && offs < out.Length && out[offs] != '\0'
    ensures rest != "" && rest[0] == out[offs] && offs + 1 < out.Length
    ensures out[offs + 1] == Next(rest)
  {
    HoldsTail(out, offs, rest, 0);
  }

  lemma {:induction false} NothingLeft(out: array<char>, offs: nat, rest: string, addr: string, parts: seq<string>)
    requires Holds(out, offs, rest) && offs < out.Length && out[offs] == '\0' && parts != []
    ensures rest == "" && Expand(rest, addr, parts) == Expanded("", 0) && NeverShrinks(rest, addr, parts)
  {
    HoldsTail(out, offs, rest, 0);
  }

  lemma {:induction false} Unprefixed(e: Expansion)
    ensures Prepend("", 0, e) == e
  {
    if e.Expanded? { assert "" + e.text == e.text; }
  }
}
