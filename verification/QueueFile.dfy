/** Rewriting the queue file: deciding whether the headers changed, and copying the body. */
module QueueFile {
  import opened Text
  import opened LineReader
  import opened Options

  // ---------------------------------------------------------------- body of a file

  predicate BlankLine(l: string) {
    l == "\n" || l == "\r\n"
  }

  /** Everything behind the first blank line, or nothing. */
  function Body(file: string): string
    decreases |file|
  {
    if file == "" then ""
    else
      var n := Cut(file, |file|);
      if BlankLine(file[..n]) then file[n..] else Body(file[n..])
  }

  /** The body of header lines, a blank line and anything is that anything. */
  lemma {:induction false} BodyIs(header: seq<string>, blank: string, body: string)
    requires AreLines(header) && forall i :: 0 <= i < |header| ==> !BlankLine(header[i])
    requires BlankLine(blank)
    ensures Body(Concat(header) + blank + body) == body
    decreases |header|
  {
    if header == [] {
      assert Concat(header) + blank + body == blank + body;
      CutLine(blank, body, |blank + body|);
    } else {
      var rest := Concat(header[1..]) + blank + body;
      assert Concat(header) + blank + body == header[0] + rest;
      CutLine(header[0], rest, |header[0] + rest|);
      BodyIs(header[1..], blank, body);
    }
  }

  /** In plain words: everything behind the first line that is empty, whether it ends in LF or
      in CRLF. */
  lemma {:induction false} BodyBehind(header: seq<string>, body: string)
    requires AreLines(header) && forall i :: 0 <= i < |header| ==> header[i] != "\n" && header[i] != "\r\n"
    ensures Body(Concat(header) + "\n" + body) == body
    ensures Body(Concat(header) + "\r\n" + body) == body
  {
    BodyIs(header, "\n", body);
    BodyIs(header, "\r\n", body);
  }

  lemma {:induction false} BodyNowhere(lines: seq<string>, last: string)
    requires AreLines(lines) && forall i :: 0 <= i < |lines| ==> lines[i] != "\n" && lines[i] != "\r\n"
    requires '\n' !in last
    ensures Body(Concat(lines) + last) == ""
  {
    NoBody(lines, last);
  }

  /** Without a blank line there is no body, whatever follows the last line feed. */
  lemma {:induction false} NoBody(lines: seq<string>, last: string)
    requires AreLines(lines) && forall i :: 0 <= i < |lines| ==> !BlankLine(lines[i])
    requires '\n' !in last
    ensures Body(Concat(lines) + last) == ""
    decreases |lines|
  {
    if lines == [] {
      assert Concat(lines) + last == last;
      assert last[..|last|] == last;
      CutIs(last, |last|, |last|);
    } else {
      var rest := Concat(lines[1..]) + last;
      assert Concat(lines) + last == lines[0] + rest;
      CutLine(lines[0], rest, |lines[0] + rest|);
      NoBody(lines[1..], last);
    }
  }

  // ---------------------------------------------------------------- streams

  /** An open file with its position; eof is set by a read that hits the end. */
  class Source {
    const content: string
    var pos: nat
    var eof: bool

    ghost predicate Valid()
      reads this
    {
      pos <= |content| && (eof ==> pos == |content|)
    }

    ghost function Left(): string
      requires Valid()
      reads this
    {
      content[pos..]
    }

    constructor (content: string)
      ensures Valid() && this.content == content && Left() == content && !eof && pos == 0
    {
      this.content := content;
      pos, eof := 0, false;
    }

    /** The next line with its line feed; none at the end of the file. */
    method GetLine() returns (ok: bool, line: string)
      requires Valid()
      modifies this
      ensures Valid()
      ensures var left := old(Left());
              var n := Cut(left, |left|);
              ok == (left != "") && line == left[..n] && Left() == left[n..] &&
              (eof <==> old(eof) || n == 0 || left[n - 1] != '\n')
    {
      var n := Cut(content[pos..], |content[pos..]|);
      line := content[pos..pos + n];
      ok := n > 0;
      pos := pos + n;
      if n == 0 || line[n - 1] != '\n' {
        eof := true;
      }
    }

    /** Up to one block. */
    method Read() returns (bytes: string)
      requires Valid()
      modifies this
      ensures Valid() && bytes + Left() == old(Left()) && |bytes| <= BUFSIZE
      ensures if |bytes| < BUFSIZE then eof && Left() == "" else eof == old(eof)
    {
      var n := if |content| - pos < BUFSIZE then |content| - pos else BUFSIZE;
      bytes := content[pos..pos + n];
      pos := pos + n;
      if n < BUFSIZE {
        eof := true;
      }
    }
  }

  /** A file open for writing. Each entry of `accepts` bounds how much one write takes, zero
      being a failure; after the last entry writes are complete. */
  class Sink {
    var content: string
    var accepts: seq<nat>

    constructor (content: string, accepts: seq<nat>)
      ensures this.content == content && this.accepts == accepts
    {
      this.content, this.accepts := content, accepts;
    }

    method Write(bytes: string) returns (n: nat)
      requires bytes != ""
      modifies this
      ensures n <= |bytes| && content == old(content) + bytes[..n]
      ensures forall k :: k in accepts ==> k in old(accepts)
      ensures n == 0 ==> 0 in old(accepts)
    {
      n := |bytes|;
      if accepts != [] {
        if accepts[0] < n {
          n := accepts[0];
        }
        accepts := accepts[1..];
      }
      content := content + bytes[..n];
    }

    /** Writes until all is written or a write fails. */
    method WriteAll(bytes: string) returns (ok: bool, ghost done: nat)
      modifies this
      ensures done <= |bytes| && content == old(content) + bytes[..done]
      ensures ok ==> done == |bytes|
      ensures !ok ==> 0 in old(accepts)
      ensures forall k :: k in accepts ==> k in old(accepts)
    {
      var from := 0;
      while from < |bytes|
        invariant 0 <= from <= |bytes| && content == old(content) + bytes[..from]
        invariant forall k :: k in accepts ==> k in old(accepts)
      {
        var n := Write(bytes[from..]);
        assert bytes[..from + n] == bytes[..from] + bytes[from..][..n];
        if n == 0 {
          return false, from;
        }
        from := from + n;
      }
      return true, from;
    }
  }

  lemma {:induction false} Appended(start: string, body: string, n: nat, bytes: string, rest: string, done: nat)
    requires n <= |body| && body[n..] == bytes + rest && done <= |bytes|
    ensures n + |bytes| <= |body| && rest == body[n + |bytes|..]
    ensures start + body[..n] + bytes[..done] == start + body[..n + done]
  {
    assert body == body[..n] + (bytes + rest);
  }

  /** Copies what follows the first blank line; the result is the number of bytes written, or
      -1 if a write fails. */
  method WriteSkipHeader(src: Source, dest: Sink) returns (ret: int)
    requires src.Valid() && !src.eof && src.pos == 0
    modifies src, dest
    ensures ret >= 0 ==> ret == |Body(src.content)| && dest.content == old(dest.content) + Body(src.content)
    ensures ret < 0 ==> ret == -1 && 0 in old(dest.accepts) &&
                        exists n :: 0 <= n <= |Body(src.content)| && dest.content == old(dest.content) + Body(src.content)[..n]
  {
    var found := false;
    var nwritten := 0;
    ghost var body := Body(src.content);
    ghost var start := dest.content;
    while !src.eof
      invariant src.Valid() && 0 <= nwritten <= |body|
      invariant !found ==> nwritten == 0 && Body(src.Left()) == body
      invariant found ==> src.Left() == body[nwritten..]
      invariant dest.content == start + body[..nwritten]
      invariant forall k :: k in dest.accepts ==> k in old(dest.accepts)
      decreases |src.Left()|, !src.eof
    {
      if !found {
        var ok, line := src.GetLine();
        if !ok {
          break;
        }
        if BlankLine(line) {
          found := true;
        }
      } else {
        var bytes := src.Read();
        var ok, done := dest.WriteAll(bytes);
        Appended(start, body, nwritten, bytes, src.Left(), done);
        if !ok {
          return -1;
        }
        nwritten := nwritten + |bytes|;
      }
    }
    assert found ==> nwritten == |body|;
    assert body[..|body|] == body;
    ret := nwritten;
  }

  // ---------------------------------------------------------------- changed headers

  /** A header with its values; a value may be missing. */
  datatype Header = Header(name: string, values: seq<Option<string>>)

  /** Missing values compare equal to everything. */
  predicate SameValue(a: Option<string>, b: Option<string>) {
    a.None? || b.None? || a == b
  }

  predicate SameValues(h: Header, g: Header) {
    |h.values| == |g.values| && forall i :: 0 <= i < |h.values| ==> SameValue(h.values[i], g.values[i])
  }

  /** The first header of that name, or the length of the list. */
  function FirstNamed(headers: seq<Header>, name: string): (n: nat)
    ensures n <= |headers| && forall i :: 0 <= i < n ==> headers[i].name != name
    ensures n < |headers| ==> headers[n].name == name
  {
    if headers == [] || headers[0].name == name then 0 else 1 + FirstNamed(headers[1..], name)
  }

  /** The header is found in the list, and the first one of its name has its values. */
  predicate Kept(h: Header, initial: seq<Header>) {
    var n := FirstNamed(initial, h.name);
    n < |initial| && SameValues(h, initial[n])
  }

  predicate Dirty(current: seq<Header>, initial: seq<Header>) {
    |current| != |initial| || exists i :: 0 <= i < |current| && !Kept(current[i], initial)
  }

  /** The nested scan over both lists. */
  method IsDirty(current: seq<Header>, initial: seq<Header>) returns (dirty: bool)
    ensures dirty <==> Dirty(current, initial)
  {
    dirty := false;
    if |current| != |initial| {
      return true;
    }
    var m := 0;
    while m < |current|
      invariant 0 <= m <= |current|
      invariant dirty <==> exists i :: 0 <= i < m && !Kept(current[i], initial)
    {
      var h := current[m];
      var found := false;
      var e := 0;
      ghost var before := dirty;
      while e < |initial|
        invariant 0 <= e <= |initial| && !found && dirty == before
        invariant forall i :: 0 <= i < e ==> initial[i].name != h.name
      {
        if h.name == initial[e].name {
          found := true;
          FirstNamedIs(initial, h.name, e);
          var same := CompareValues(h, initial[e]);
          if !same {
            dirty := true;
          }
          break;
        }
        e := e + 1;
      }
      if !found {
        FirstNamedIs(initial, h.name, |initial|);
        return true;
      }
      assert dirty <==> before || !Kept(h, initial);
      m := m + 1;
    }
  }

  lemma {:induction false} FirstNamedIs(headers: seq<Header>, name: string, n: nat)
    requires n <= |headers| && forall i :: 0 <= i < n ==> headers[i].name != name
    requires n < |headers| ==> headers[n].name == name
    ensures FirstNamed(headers, name) == n
  {
    if n > 0 {
      assert headers[0].name != name;
      FirstNamedIs(headers[1..], name, n - 1);
    }
  }

  method CompareValues(h: Header, g: Header) returns (same: bool)
    ensures same <==> SameValues(h, g)
  {
    if |h.values| != |g.values| {
      return false;
    }
    same := true;
    for i := 0 to |h.values|
      invariant same <==> forall k :: 0 <= k < i ==> SameValue(h.values[k], g.values[k])
    {
      if h.values[i].Some? && g.values[i].Some? && h.values[i] != g.values[i] {
        same := false;
      }
    }
  }

  predicate DistinctNames(headers: seq<Header>) {
    forall i, j :: 0 <= i < j < |headers| ==> headers[i].name != headers[j].name
  }

  predicate NothingMissing(headers: seq<Header>) {
    forall i, k :: 0 <= i < |headers| && 0 <= k < |headers[i].values| ==> headers[i].values[k].Some?
  }

  /** With distinct current names and no missing values the scan finds no change exactly when
      the current list is a permutation of the initial one. */
  lemma {:induction false} CleanIffPermutation(current: seq<Header>, initial: seq<Header>)
    requires DistinctNames(current) && NothingMissing(current) && NothingMissing(initial)
    ensures !Dirty(current, initial) <==> multiset(current) == multiset(initial)
  {
    if !Dirty(current, initial) {
      CleanIsPermutation(current, initial);
    }
    if multiset(current) == multiset(initial) {
      PermutationIsClean(current, initial);
    }
  }

  lemma {:induction false} DistinctOnce(headers: seq<Header>)
    requires DistinctNames(headers)
    ensures forall h :: multiset(headers)[h] <= 1
  {
    if headers != [] {
      var k := |headers| - 1;
      DistinctOnce(headers[..k]);
      assert headers == headers[..k] + [headers[k]];
      assert headers[k] !in headers[..k];
      assert headers[k] !in multiset(headers[..k]);
    }
  }

  /** Pigeonhole: every current header stands in the initial list, once, and the lists are
      equally long. */
  lemma {:induction false} CleanIsPermutation(current: seq<Header>, initial: seq<Header>)
    requires DistinctNames(current) && NothingMissing(current) && NothingMissing(initial)
    requires !Dirty(current, initial)
    ensures multiset(current) == multiset(initial)
  {
    DistinctOnce(current);
    forall h | h in multiset(current)
      ensures multiset(current)[h] <= multiset(initial)[h]
    {
      assert h in current;
      var i :| 0 <= i < |current| && current[i] == h;
      assert Kept(current[i], initial);
      var n := FirstNamed(initial, h.name);
      SameIsEqual(h, initial[n]);
      assert initial[n] in multiset(initial);
    }
    assert multiset(current) <= multiset(initial);
    EqualBySize(multiset(current), multiset(initial));
  }

  lemma {:induction false} SameIsEqual(h: Header, g: Header)
    requires h.name == g.name && SameValues(h, g)
    requires forall k :: 0 <= k < |h.values| ==> h.values[k].Some?
    requires forall k :: 0 <= k < |g.values| ==> g.values[k].Some?
    ensures h == g
  {
    assert h.values == g.values;
  }

  lemma {:induction false} EqualBySize<T>(a: multiset<T>, b: multiset<T>)
    requires a <= b && |a| == |b|
    ensures a == b
  {
    assert b == a + (b - a);
    assert |b - a| == 0;
  }

  lemma {:induction false} PermutationIsClean(current: seq<Header>, initial: seq<Header>)
    requires DistinctNames(current) && multiset(current) == multiset(initial)
    ensures !Dirty(current, initial)
  {
    assert |current| == |multiset(current)| == |multiset(initial)| == |initial|;
    forall i | 0 <= i < |current|
      ensures Kept(current[i], initial)
    {
      assert current[i] in multiset(current);
      assert current[i] in multiset(initial);
      var j :| 0 <= j < |initial| && initial[j] == current[i];
      var n := FirstNamed(initial, current[i].name);
      assert n <= j;
      assert initial[n] in multiset(initial);
      assert initial[n] in multiset(current);
      var k :| 0 <= k < |current| && current[k] == initial[n];
      assert k == i;
    }
  }

  /** g is h, apart from values that have gone missing. */
  ghost predicate Forgets(g: Header, h: Header) {
    g.name == h.name && |g.values| == |h.values| &&
    forall k :: 0 <= k < |g.values| ==> g.values[k] == None || g.values[k] == h.values[k]
  }

  /** A list that looks unchanged still does so without some of its values. */
  lemma {:induction false} LostValuesUnnoticed(now: seq<Header>, current: seq<Header>, initial: seq<Header>)
    requires |now| == |current| && forall i :: 0 <= i < |now| ==> Forgets(now[i], current[i])
    requires !Dirty(current, initial)
    ensures !Dirty(now, initial)
  {
    forall i | 0 <= i < |now|
      ensures Kept(now[i], initial)
    {
      assert Forgets(now[i], current[i]) && Kept(current[i], initial);
    }
  }

  /** Two headers share a name. */
  ghost predicate Repeated(headers: seq<Header>, i: int, j: int) {
    0 <= i < j < |headers| && headers[i].name == headers[j].name
  }

  /** Headers that share a name are equal. */
  ghost predicate Consistent(headers: seq<Header>) {
    forall i, j :: Repeated(headers, i, j) ==> headers[i] == headers[j]
  }

  /** The first header of a name that occurs. */
  lemma {:induction false} FirstOf(headers: seq<Header>, i: nat)
    requires i < |headers|
    ensures var n := FirstNamed(headers, headers[i].name); n <= i && headers[n].name == headers[i].name
  {
  }

  lemma {:induction false} KeptIsEqual(h: Header, initial: seq<Header>)
    requires (forall k :: 0 <= k < |h.values| ==> h.values[k].Some?) && NothingMissing(initial)
    ensures var n := FirstNamed(initial, h.name);
            Kept(h, initial) <==> n < |initial| && initial[n] == h
  {
    var n := FirstNamed(initial, h.name);
    if Kept(h, initial) {
      SameIsEqual(h, initial[n]);
    }
  }

  /** The opposite failure: a list that has not changed at all is taken to have changed exactly
      if two of its headers share a name and differ in their values. */
  lemma {:induction false} UnchangedIsClean(headers: seq<Header>)
    requires NothingMissing(headers)
    ensures !Dirty(headers, headers) <==> Consistent(headers)
  {
    hide FirstNamed, Kept;
    forall i | 0 <= i < |headers|
      ensures var n := FirstNamed(headers, headers[i].name);
              n <= i && headers[n].name == headers[i].name && (Kept(headers[i], headers) <==> headers[n] == headers[i])
    {
      FirstOf(headers, i);
      KeptIsEqual(headers[i], headers);
    }
    if Consistent(headers) {
      forall i | 0 <= i < |headers|
        ensures Kept(headers[i], headers)
      {
        var n := FirstNamed(headers, headers[i].name);
        assert n < i ==> Repeated(headers, n, i);
      }
    } else {
      var i, j :| Repeated(headers, i, j) && headers[i] != headers[j];
      assert FirstNamed(headers, headers[i].name) == FirstNamed(headers, headers[j].name);
      assert !Kept(headers[i], headers) || !Kept(headers[j], headers);
    }
  }

  /** If two headers share a name and differ, every initial list looks changed. */
  lemma {:induction false} InconsistentIsDirty(current: seq<Header>, initial: seq<Header>)
    requires NothingMissing(current) && NothingMissing(initial) && !Consistent(current)
    ensures Dirty(current, initial)
  {
    var i, j :| Repeated(current, i, j) && current[i] != current[j];
    KeptIsEqual(current[i], initial);
    KeptIsEqual(current[j], initial);
    hide FirstNamed, Kept;
    assert !Kept(current[i], initial) || !Kept(current[j], initial);
  }

  function Longer(headers: seq<Header>): (name: string)
    ensures forall i :: 0 <= i < |headers| ==> |headers[i].name| < |name|
  {
    if headers == [] then "x" else
      var n := Longer(headers[1..]);
      assert forall i :: 0 < i < |headers| ==> headers[i] == headers[1..][i - 1];
      n + headers[0].name + "x"
  }

  /** Replacing a repeated header by one of another name. */
  lemma {:induction false} LostHeader(current: seq<Header>, i: int, j: int) returns (initial: seq<Header>)
    requires NothingMissing(current) && Consistent(current) && Repeated(current, i, j)
    ensures NothingMissing(initial) && !Dirty(current, initial) && multiset(initial) != multiset(current)
    ensures |initial| == |current| && exists g :: g in initial && g !in current
  {
    var g := Header(Longer(current), []);
    initial := current[j := g];
    forall k | 0 <= k < |current|
      ensures Kept(current[k], initial)
    {
      LostKeeps(current, i, j, g, k);
    }
    assert initial[j] == g && g in multiset(initial);
    assert g !in current && g !in multiset(current);
  }

  lemma {:induction false} LostKeeps(current: seq<Header>, i: int, j: int, g: Header, k: nat)
    requires NothingMissing(current) && Consistent(current) && Repeated(current, i, j) && k < |current|
    requires forall m :: 0 <= m < |current| ==> current[m].name != g.name
    ensures Kept(current[k], current[j := g])
  {
    var initial := current[j := g];
    var name := current[k].name;
    FirstOf(current, k);
    var n := FirstNamed(current, name);
    hide FirstNamed;
    assert current[i].name == current[j].name;
    assert n != j;
    assert forall m :: 0 <= m < n ==> initial[m].name != name;
    FirstNamedIs(initial, name, n);
    assert n < k ==> Repeated(current, n, k);
    assert initial[n] == current[k];
  }

  /** A change can go unnoticed exactly if a name is repeated and its headers are equal. */
  lemma {:induction false} RepeatedNameHidesLoss(current: seq<Header>)
    requires NothingMissing(current)
    ensures (exists initial :: NothingMissing(initial) && !Dirty(current, initial) && multiset(current) != multiset(initial)) <==>
            !DistinctNames(current) && Consistent(current)
  {
    if initial :| NothingMissing(initial) && !Dirty(current, initial) && multiset(current) != multiset(initial) {
      if DistinctNames(current) {
        CleanIffPermutation(current, initial);
      }
      if !Consistent(current) {
        InconsistentIsDirty(current, initial);
      }
    }
    if !DistinctNames(current) && Consistent(current) {
      var i, j :| 0 <= i < j < |current| && current[i].name == current[j].name;
      assert Repeated(current, i, j);
      var initial := LostHeader(current, i, j);
    }
  }

  /** The scan tells a change from none, whatever the initial list. */
  ghost predicate ScanIsExact(current: seq<Header>) {
    forall initial :: NothingMissing(initial) ==> (!Dirty(current, initial) <==> multiset(current) == multiset(initial))
  }

  /** It does so exactly for lists without a repeated name. */
  lemma {:induction false} ExactIffDistinct(current: seq<Header>)
    requires NothingMissing(current)
    ensures ScanIsExact(current) <==> DistinctNames(current)
  {
    if DistinctNames(current) {
      forall initial | NothingMissing(initial)
        ensures !Dirty(current, initial) <==> multiset(current) == multiset(initial)
      {
        CleanIffPermutation(current, initial);
      }
    } else {
      hide Dirty;
      if Consistent(current) {
        RepeatedNameHidesLoss(current);
      } else {
        UnchangedIsClean(current);
        assert multiset(current) == multiset(current);
      }
    }
  }

  // ---------------------------------------------------------------- flush

  /** Rewrites the queue file if the headers changed: the message text, then the old body.
      `serialised` says whether the text could be written; the file is None if it is gone. */
  method FlushDirty(
    current: seq<Header>, initial: seq<Header>, text: string, file: string,
    disk: Disk, serialised: bool, accepts: seq<nat>)
    returns (ret: int, file': Option<string>)
    ensures ret == 0 || ret == -1
    ensures ret == 0 ==> file' == Some(if Dirty(current, initial) then text + Body(file) else file)
    ensures !Dirty(current, initial) ==> ret == 0
    ensures Dirty(current, initial) && 0 !in accepts ==>
              (ret == 0 <==> disk.create && serialised && disk.open && disk.reopen && disk.unlink && disk.rename)
    ensures ret == -1 ==> file' == Some(file) || (file' == None && disk.unlink && !disk.rename)
    ensures ret == -1 && disk.create && serialised && disk.open && disk.reopen && disk.unlink && 0 !in accepts ==> file' == None
  {
    file' := Some(file);
    var dirty := IsDirty(current, initial);
    if dirty {
      if !disk.create || !serialised || !disk.open || !disk.reopen {
        return -1, file';
      }
      var dest := new Sink(text, accepts);
      var src := new Source(file);
      var n := WriteSkipHeader(src, dest);
      if n == -1 {
        return -1, file';
      }
      if !disk.unlink {
        return -1, file';
      }
      file' := None;
      if !disk.rename {
        return -1, file';
      }
      file' := Some(dest.content);
    }
    ret := 0;
  }
}
